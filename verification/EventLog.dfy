/** The append-only decision log and its hash chain (mas/decision_events.py). */
module EventLog {
  import opened Collections

  /** The fields that are hashed, apart from the link to the previous event. `rest` stands for the
      remaining envelope fields and the payload. */
  datatype Content = Content(eventId: string, projectId: string, eventType: string, rest: string)

  datatype Event = Event(content: Content, prevEventId: Option<string>, eventHash: string)

  datatype Link = Link(eventId: string, eventHash: string)

  /** SHA-256 as a hex digest, and the canonical JSON of an event; neither is interpreted. */
  datatype Crypto = Crypto(sha: string -> string, canon: (Content, string) -> string)

  /** A hex digest is not empty and has no separator in it. */
  ghost predicate Digest(c: Crypto) {
    forall x :: c.sha(x) != "" && '|' !in c.sha(x)
  }

  function Body(c: Crypto, e: Event): string {
    c.canon(e.content, if e.prevEventId.Some? then e.prevEventId.value else "")
  }

  function HashInput(c: Crypto, e: Event, prevHash: string): string {
    prevHash + "|" + Body(c, e)
  }

  function LinkOf(e: Event): Link {
    Link(e.content.eventId, e.eventHash)
  }

  // ---------- verification ----------

  function PrevHash(events: seq<Event>, i: nat): string
    requires i <= |events|
  {
    if i == 0 then "" else events[i - 1].eventHash
  }

  function Input(c: Crypto, events: seq<Event>, i: nat): string
    requires i < |events|
  {
    HashInput(c, events[i], PrevHash(events, i))
  }

  predicate Sealed(c: Crypto, events: seq<Event>, i: nat)
    requires i < |events|
  {
    events[i].eventHash == c.sha(Input(c, events, i))
  }

  predicate Verified(c: Crypto, events: seq<Event>) {
    forall i :: 0 <= i < |events| ==> Sealed(c, events, i)
  }

  /** `verify_chain`: the least position whose stored hash is not the recomputed one. */
  method VerifyChain(c: Crypto, events: seq<Event>) returns (ok: bool, breakAt: Option<nat>)
    ensures ok <==> Verified(c, events)
    ensures ok <==> breakAt.None?
    ensures breakAt.Some? ==>
              && breakAt.value < |events| && !Sealed(c, events, breakAt.value)
              && forall k :: 0 <= k < breakAt.value ==> Sealed(c, events, k)
  {
    var prevHash := "";
    for i := 0 to |events|
      invariant prevHash == PrevHash(events, i)
      invariant forall k :: 0 <= k < i ==> Sealed(c, events, k)
    {
      var expected := c.sha(HashInput(c, events[i], prevHash));
      if events[i].eventHash != expected {
        assert !Sealed(c, events, i);
        return false, Some(i);
      }
      prevHash := events[i].eventHash;
    }
    return true, None;
  }

  // ---------- tamper evidence ----------

  function Head(events: seq<Event>): string {
    PrevHash(events, |events|)
  }

  function Bodies(c: Crypto, events: seq<Event>): seq<string> {
    seq(|events|, i requires 0 <= i < |events| => Body(c, events[i]))
  }

  /** Two different texts hashed in the two logs have the same digest. */
  predicate Collide(c: Crypto, a: seq<Event>, i: nat, b: seq<Event>, j: nat) {
    i < |a| && j < |b| && Input(c, a, i) != Input(c, b, j) && c.sha(Input(c, a, i)) == c.sha(Input(c, b, j))
  }

  ghost predicate Collision(c: Crypto, a: seq<Event>, b: seq<Event>) {
    exists i: nat, j: nat :: Collide(c, a, i, b, j)
  }

  lemma SplitUnique(p: string, x: string, q: string, y: string)
    requires '|' !in p && '|' !in q && p + "|" + x == q + "|" + y
    ensures p == q && x == y
  {
    var s, t := p + "|" + x, q + "|" + y;
    assert s[|p|] == '|' && t[|q|] == '|';
    assert forall k :: 0 <= k < |p| ==> s[k] == p[k] && s[k] != '|';
    assert forall k :: 0 <= k < |q| ==> t[k] == q[k] && t[k] != '|';
    assert s[..|p|] == p && t[..|q|] == q;
    assert s[|p| + 1..] == x && t[|q| + 1..] == y;
  }

  lemma PrevHashClean(c: Crypto, events: seq<Event>, i: nat)
    requires Digest(c) && Verified(c, events) && i <= |events|
    ensures '|' !in PrevHash(events, i)
    ensures i > 0 ==> PrevHash(events, i) != ""
  {
    if i > 0 { assert Sealed(c, events, i - 1); }
  }

  lemma VerifiedPrefix(c: Crypto, events: seq<Event>, n: nat)
    requires Verified(c, events) && n <= |events|
    ensures Verified(c, events[..n])
  {
    forall i | 0 <= i < n ensures Sealed(c, events[..n], i) {
      assert Sealed(c, events, i);
      assert Input(c, events[..n], i) == Input(c, events, i);
    }
  }

  /** Two logs that both verify and end in the same hash hold the same number of events with the
      same canonical bodies throughout, or a digest collision between texts they hash is at hand. */
  lemma {:induction false} TamperEvident(c: Crypto, a: seq<Event>, b: seq<Event>)
    requires Digest(c) && Verified(c, a) && Verified(c, b) && Head(a) == Head(b)
    ensures (|a| == |b| && Bodies(c, a) == Bodies(c, b)) || Collision(c, a, b)
    decreases |a|
  {
    PrevHashClean(c, a, |a|);
    PrevHashClean(c, b, |b|);
    if a != [] && b != [] {
      var m, n := |a| - 1, |b| - 1;
      assert Sealed(c, a, m) && Sealed(c, b, n);
      if Input(c, a, m) != Input(c, b, n) {
        assert Collide(c, a, m, b, n);
      } else {
        PrevHashClean(c, a, m);
        PrevHashClean(c, b, n);
        SplitUnique(PrevHash(a, m), Body(c, a[m]), PrevHash(b, n), Body(c, b[n]));
        VerifiedPrefix(c, a, m);
        VerifiedPrefix(c, b, n);
        TamperEvident(c, a[..m], b[..n]);
        if |a| == |b| && Bodies(c, a[..m]) == Bodies(c, b[..n]) {
          LastBody(c, a);
          LastBody(c, b);
        } else {
          var i: nat, j: nat :| Collide(c, a[..m], i, b[..n], j);
          assert Input(c, a[..m], i) == Input(c, a, i) && Input(c, b[..n], j) == Input(c, b, j);
          assert Collide(c, a, i, b, j);
        }
      }
    }
  }

  lemma LastBody(c: Crypto, a: seq<Event>)
    requires a != []
    ensures Bodies(c, a) == Bodies(c, a[..|a| - 1]) + [Body(c, a[|a| - 1])]
  {
  }

  /** Changing the body of one event of a verified log breaks the chain at that event when its stored
      hash is kept, and right after it when its hash is recomputed; otherwise a collision is at hand. */
  lemma EditIsDetected(c: Crypto, a: seq<Event>, k: nat, e: Event)
    requires Digest(c) && Verified(c, a) && k < |a| && Body(c, e) != Body(c, a[k])
    ensures var b := a[k := e];
            || !Sealed(c, b, k)
            || Collide(c, a, k, b, k)
            || (k + 1 < |a| && (!Sealed(c, b, k + 1) || Collide(c, a, k + 1, b, k + 1)))
            || (k + 1 == |a| && Head(b) != Head(a))
  {
    var b := a[k := e];
    assert PrevHash(b, k) == PrevHash(a, k);
    assert Sealed(c, a, k);
    PrevHashClean(c, a, k);
    if Input(c, a, k) == Input(c, b, k) {
      SplitUnique(PrevHash(a, k), Body(c, a[k]), PrevHash(b, k), Body(c, e));
      assert false;
    }
    if Sealed(c, b, k) && !Collide(c, a, k, b, k) && k + 1 < |a| {
      assert Sealed(c, a, k + 1);
      assert b[k + 1] == a[k + 1];
      if Sealed(c, b, k + 1) && Input(c, a, k + 1) == Input(c, b, k + 1) {
        PrevHashClean(c, a, k + 1);
        SplitUnique(PrevHash(a, k + 1), Body(c, a[k + 1]), PrevHash(b, k + 1), Body(c, a[k + 1]));
        assert false;
      }
    }
  }

  // ---------- appending ----------

  /** What the database answers when asked for the project's newest row, and when asked to insert. */
  datatype Lookup = NoPool | Row(link: Link) | NoRow | LookupFailed
  datatype Write = NoPoolNow | Stored | WriteFailed

  /** One call of `append`: which project, what is appended, and how storage behaves during the call. */
  datatype Step = Step(content: Content, lookup: Lookup, write: Write)

  /** `returned` is every event this process has handed back, with the link it was sealed over and
      where it went. */
  datatype Entry = Entry(event: Event, prev: Option<Link>, inMemory: bool)
  datatype State = State(mem: map<string, seq<Event>>, last: map<string, Link>, returned: map<string, seq<Entry>>)

  const EMPTY := State(map[], map[], map[])

  function Get<T>(m: map<string, seq<T>>, p: string): seq<T> {
    if p in m then m[p] else []
  }

  function Accepted(step: Step): bool {
    step.content.projectId != "" && step.content.eventType != ""
  }

  /** The link a new event of project `p` gets. */
  function Previous(st: State, p: string, lookup: Lookup): Option<Link> {
    if p in st.last then Some(st.last[p])
    else
      match lookup
      case NoPool => if Get(st.mem, p) == [] then None else Some(LinkOf(Get(st.mem, p)[|Get(st.mem, p)| - 1]))
      case Row(link) => Some(link)
      case NoRow => None
      case LookupFailed => None
  }

  function Build(c: Crypto, content: Content, prev: Option<Link>): Event {
    var unsealed := Event(content, if prev.Some? then Some(prev.value.eventId) else None, "");
    var prevHash := if prev.Some? then prev.value.eventHash else "";
    unsealed.(eventHash := c.sha(HashInput(c, unsealed, prevHash)))
  }

  /** The event holds the content, names the event of the link, if any, and is hashed over its hash. */
  predicate IsSealed(c: Crypto, e: Event, content: Content, prev: Option<Link>) {
    && e.content == content
    && match prev
       case Some(link) => e.prevEventId == Some(link.eventId) && e.eventHash == c.sha(link.eventHash + "|" + c.canon(content, link.eventId))
       case None => e.prevEventId == None && e.eventHash == c.sha("" + "|" + c.canon(content, ""))
  }

  lemma BuildSeals(c: Crypto, content: Content, prev: Option<Link>)
    ensures IsSealed(c, Build(c, content, prev), content, prev)
  {
  }

  function Append(c: Crypto, st: State, step: Step): State {
    if !Accepted(step) then st
    else
      var p := step.content.projectId;
      var prev := Previous(st, p, step.lookup);
      var e := Build(c, step.content, prev);
      State(
        if step.write == Stored then st.mem else st.mem[p := Get(st.mem, p) + [e]],
        st.last[p := LinkOf(e)],
        st.returned[p := Get(st.returned, p) + [Entry(e, prev, step.write != Stored)]])
  }

  /** The process state: memory fallback, cache of last events, and the ghost record of what was returned. */
  class DecisionLog {
    const crypto: Crypto
    var mem: map<string, seq<Event>>
    var last: map<string, Link>
    ghost var returned: map<string, seq<Entry>>

    ghost function Snapshot(): State
      reads this
    {
      State(mem, last, returned)
    }

    constructor (crypto: Crypto)
      ensures Snapshot() == EMPTY && this.crypto == crypto
    {
      this.crypto := crypto;
      mem, last, returned := map[], map[], map[];
    }

    /** `_fetch_last_event`: a row read from the database is cached; a memory event is not. */
    method FetchLastEvent(projectId: string, lookup: Lookup) returns (prev: Option<Link>)
      modifies this`last
      ensures prev == Previous(old(Snapshot()), projectId, lookup)
      ensures projectId in old(last) ==> prev == Some(old(last)[projectId])
      ensures projectId !in old(last) && lookup.Row? ==> prev == Some(lookup.link)
      ensures projectId !in old(last) && (lookup.NoRow? || lookup.LookupFailed?) ==> prev == None
      ensures projectId !in old(last) && lookup.NoPool? ==>
                if projectId in mem && mem[projectId] != [] then prev == Some(LinkOf(mem[projectId][|mem[projectId]| - 1])) else prev == None
      ensures last == if projectId !in old(last) && lookup.Row? then old(last)[projectId := lookup.link] else old(last)
    {
      if projectId in last {
        return Some(last[projectId]);
      }
      match lookup {
        case NoPool =>
          var events := if projectId in mem then mem[projectId] else [];
          prev := if events == [] then None else Some(LinkOf(events[|events| - 1]));
        case Row(link) =>
          last := last[projectId := link];
          prev := Some(link);
        case NoRow =>
          prev := None;
        case LookupFailed =>
          prev := None;
      }
    }

    /** `append`: build, hash, store or fall back to memory, and remember the event as the last one. */
    method AppendEvent(step: Step) returns (r: Option<Event>)
      modifies this
      ensures Snapshot() == Append(crypto, old(Snapshot()), step)
      ensures r.None? <==> step.content.projectId == "" || step.content.eventType == ""
      ensures r.Some? ==> IsSealed(crypto, r.value, step.content, Previous(old(Snapshot()), step.content.projectId, step.lookup))
    {
      hide Build, IsSealed, Previous;
      if !Accepted(step) {
        return None;
      }
      BuildSeals(crypto, step.content, Previous(Snapshot(), step.content.projectId, step.lookup));
      var p := step.content.projectId;
      var prev := FetchLastEvent(p, step.lookup);
      var event := Build(crypto, step.content, prev);
      match step.write {
        case Stored =>
        case NoPoolNow =>
          mem := mem[p := (if p in mem then mem[p] else []) + [event]];
        case WriteFailed =>
          mem := mem[p := (if p in mem then mem[p] else []) + [event]];
      }
      last := last[p := LinkOf(event)];
      returned := returned[p := Get(returned, p) + [Entry(event, prev, step.write != Stored)]];
      return Some(event);
    }
  }

  // ---------- every run of appends ----------

  function Run(c: Crypto, steps: seq<Step>): State {
    if steps == [] then EMPTY else Append(c, Run(c, steps[..|steps| - 1]), steps[|steps| - 1])
  }

  predicate InMemory(entries: seq<Entry>) {
    forall i :: 0 <= i < |entries| ==> entries[i].inMemory
  }

  function Events(entries: seq<Entry>): seq<Event> {
    seq(|entries|, i requires 0 <= i < |entries| => entries[i].event)
  }

  /** The events that went to memory, in order. */
  function MemoryEvents(entries: seq<Entry>): seq<Event> {
    if entries == [] then []
    else
      var front := MemoryEvents(entries[..|entries| - 1]);
      var e := entries[|entries| - 1];
      if e.inMemory then front + [e.event] else front
  }

  /** Every entry is sealed over its link, and every entry after the first links to the one before it. */
  predicate Linked(c: Crypto, entries: seq<Entry>) {
    && (forall i :: 0 <= i < |entries| ==> entries[i].event == Build(c, entries[i].event.content, entries[i].prev))
    && (forall i :: 1 <= i < |entries| ==> entries[i].prev == Some(LinkOf(entries[i - 1].event)))
  }

  /** The cache is the last returned event and memory holds exactly the fallen-back events. */
  predicate Consistent(c: Crypto, st: State, p: string) {
    var entries := Get(st.returned, p);
    && Linked(c, entries)
    && Get(st.mem, p) == MemoryEvents(entries)
    && (p in st.last <==> entries != [])
    && (entries != [] ==> st.last[p] == LinkOf(entries[|entries| - 1].event))
  }

  ghost predicate Chained(c: Crypto, st: State) {
    forall p :: Consistent(c, st, p)
  }

  /** One append keeps links, cache and memory consistent for every project. */
  lemma AppendChains(c: Crypto, st: State, step: Step)
    requires Chained(c, st)
    ensures Chained(c, Append(c, st, step))
  {
    forall p ensures Consistent(c, Append(c, st, step), p) {
      assert Consistent(c, st, p);
      if Accepted(step) && step.content.projectId == p { OwnChain(c, st, step, p); } else { OtherChain(c, st, step, p); }
    }
  }

  lemma OtherChain(c: Crypto, st: State, step: Step, p: string)
    requires Consistent(c, st, p) && !(Accepted(step) && step.content.projectId == p)
    ensures Consistent(c, Append(c, st, step), p)
  {
    hide Build, Linked, MemoryEvents;
    var next := Append(c, st, step);
    assert Get(next.returned, p) == Get(st.returned, p) && Get(next.mem, p) == Get(st.mem, p);
  }

  lemma AppendReturns(c: Crypto, st: State, step: Step, p: string)
    ensures var prev := Previous(st, p, step.lookup);
            Get(Append(c, st, step).returned, p) == Get(st.returned, p) +
              if Accepted(step) && step.content.projectId == p then [Entry(Build(c, step.content, prev), prev, step.write != Stored)] else []
  {
    hide Build;
  }

  lemma OwnChain(c: Crypto, st: State, step: Step, p: string)
    requires Consistent(c, st, p) && Accepted(step) && step.content.projectId == p
    ensures Consistent(c, Append(c, st, step), p)
  {
    hide Build, Linked, MemoryEvents, Append, Previous, Get, LinkOf;
    var prev := Previous(st, p, step.lookup);
    var entries := Get(st.returned, p);
    var entry := Entry(Build(c, step.content, prev), prev, step.write != Stored);
    BuildKeeps(c, step.content, prev);
    PreviousIsLast(st, p, step.lookup);
    LinkedMore(c, entries, entry);
    LastEntry(entries, entry);
    AppendReturns(c, st, step, p);
    AppendStores(c, st, step, p);
  }

  lemma BuildKeeps(c: Crypto, content: Content, prev: Option<Link>)
    ensures Build(c, content, prev).content == content
  {
  }

  lemma PreviousIsLast(st: State, p: string, lookup: Lookup)
    ensures p in st.last ==> Previous(st, p, lookup) == Some(st.last[p])
  {
  }

  lemma AppendStores(c: Crypto, st: State, step: Step, p: string)
    requires Accepted(step) && step.content.projectId == p
    ensures var e := Build(c, step.content, Previous(st, p, step.lookup)); var next := Append(c, st, step);
            && Get(next.mem, p) == Get(st.mem, p) + (if step.write == Stored then [] else [e])
            && p in next.last && next.last[p] == LinkOf(e)
  {
    hide Build, Previous;
    assert Get(st.mem, p) + [] == Get(st.mem, p);
  }

  lemma LinkedMore(c: Crypto, entries: seq<Entry>, entry: Entry)
    requires Linked(c, entries) && entry.event == Build(c, entry.event.content, entry.prev)
    requires entries != [] ==> entry.prev == Some(LinkOf(entries[|entries| - 1].event))
    ensures Linked(c, entries + [entry])
  {
    hide Build;
  }

  lemma {:induction false} RunChains(c: Crypto, steps: seq<Step>)
    ensures Chained(c, Run(c, steps))
    decreases |steps|
  {
    if steps != [] {
      RunChains(c, steps[..|steps| - 1]);
      AppendChains(c, Run(c, steps[..|steps| - 1]), steps[|steps| - 1]);
    }
  }

  /** `f` names `e` as its predecessor and is hashed over `e`'s hash and its own canonical text with that name. */
  predicate Follows(c: Crypto, e: Event, f: Event) {
    && f.prevEventId == Some(e.content.eventId)
    && f.eventHash == c.sha(e.eventHash + "|" + c.canon(f.content, e.content.eventId))
  }

  /** The first event of a project is hashed over what the database had, or over nothing. */
  predicate Begins(c: Crypto, e: Event, lookup: Lookup) {
    match lookup
    case Row(link) => e.prevEventId == Some(link.eventId) && e.eventHash == c.sha(link.eventHash + "|" + c.canon(e.content, link.eventId))
    case _ => e.prevEventId == None && e.eventHash == c.sha("" + "|" + c.canon(e.content, ""))
  }

  /** The appends of one project that are not refused. */
  function Taken(steps: seq<Step>, p: string): seq<Step> {
    if steps == [] then []
    else
      var step := steps[|steps| - 1];
      Taken(steps[..|steps| - 1], p)
      + if step.content.projectId == p && p != "" && step.content.eventType != "" then [step] else []
  }

  /** The entries are what the appends brought: each content in order, in memory unless it was stored,
      each following the one before it, and the first beginning where the database left off. */
  predicate Continuous(c: Crypto, entries: seq<Entry>, steps: seq<Step>) {
    && |entries| == |steps|
    && (forall i :: 0 <= i < |entries| ==> entries[i].event.content == steps[i].content && (entries[i].inMemory <==> steps[i].write != Stored))
    && (forall i :: 1 <= i < |entries| ==> Follows(c, entries[i - 1].event, entries[i].event))
    && (entries != [] ==> Begins(c, entries[0].event, steps[0].lookup))
  }

  lemma BuildFollows(c: Crypto, e: Event, content: Content)
    ensures Follows(c, e, Build(c, content, Some(LinkOf(e)))) && Build(c, content, Some(LinkOf(e))).content == content
  {
  }

  lemma BuildBegins(c: Crypto, content: Content, lookup: Lookup, prev: Option<Link>)
    requires prev == if lookup.Row? then Some(lookup.link) else None
    ensures Begins(c, Build(c, content, prev), lookup) && Build(c, content, prev).content == content
  {
  }

  /** What the next event of the project is sealed over. */
  lemma NextSealed(c: Crypto, st: State, step: Step, p: string)
    requires Consistent(c, st, p)
    ensures var entries := Get(st.returned, p);
            var e := Build(c, step.content, Previous(st, p, step.lookup));
            && e.content == step.content
            && if entries != [] then Follows(c, entries[|entries| - 1].event, e) else Begins(c, e, step.lookup)
  {
    hide Build, Follows, Begins, Linked;
    var entries := Get(st.returned, p);
    if entries != [] {
      BuildFollows(c, entries[|entries| - 1].event, step.content);
    } else {
      BuildBegins(c, step.content, step.lookup, Previous(st, p, step.lookup));
    }
  }

  lemma OneMore(c: Crypto, entries: seq<Entry>, steps: seq<Step>, entry: Entry, step: Step)
    requires Continuous(c, entries, steps) && entry.event.content == step.content && (entry.inMemory <==> step.write != Stored)
    requires if entries != [] then Follows(c, entries[|entries| - 1].event, entry.event) else Begins(c, entry.event, step.lookup)
    ensures Continuous(c, entries + [entry], steps + [step])
  {
    hide Follows, Begins;
  }

  /** Chain continuity: after any sequence of appends on any projects, whatever mix of database
      success, failed writes, missing pools and failed lookups occurred, each project's returned
      events are its appends in order, each naming the one before it and hashed over its hash. */
  lemma {:induction false} ChainContinuity(c: Crypto, steps: seq<Step>, p: string)
    ensures Continuous(c, Get(Run(c, steps).returned, p), Taken(steps, p))
    decreases |steps|
  {
    hide Build, Follows, Begins, Append, Consistent, Continuous, Previous, Get;
    if steps != [] {
      var front, step := steps[..|steps| - 1], steps[|steps| - 1];
      var st := Run(c, front);
      ChainContinuity(c, front, p);
      RunChains(c, front);
      assert Consistent(c, st, p);
      AppendReturns(c, st, step, p);
      NextSealed(c, st, step, p);
      var prev := Previous(st, p, step.lookup);
      if Accepted(step) && step.content.projectId == p {
        OneMore(c, Get(st.returned, p), Taken(front, p), Entry(Build(c, step.content, prev), prev, step.write != Stored), step);
      } else {
        assert Get(st.returned, p) + [] == Get(st.returned, p) && Taken(front, p) + [] == Taken(front, p);
      }
    } else {
      NothingReturned(c, p);
    }
  }

  lemma NothingReturned(c: Crypto, p: string)
    ensures Continuous(c, Get(Run(c, []).returned, p), Taken([], p))
  {
  }

  // ---------- when the memory log verifies ----------

  /** The canonical body shows the event's id. */
  ghost predicate ShowsId(c: Crypto) {
    forall a, p, b, q :: c.canon(a, p) == c.canon(b, q) ==> a.eventId == b.eventId
  }

  predicate EachOnce(entries: seq<Entry>) {
    forall i, j :: 0 <= i < j < |entries| ==> entries[i].event.content.eventId != entries[j].event.content.eventId
  }

  /** No event went to the database before one that went to memory. */
  predicate MemoryFirst(entries: seq<Entry>) {
    forall i, j :: 0 <= i < j < |entries| && entries[j].inMemory ==> entries[i].inMemory
  }

  function SealedOver(e: Entry): string {
    if e.prev.Some? then e.prev.value.eventHash else ""
  }

  /** The text an entry's hash was made of when it was appended. */
  function AppendInput(c: Crypto, e: Entry): string {
    HashInput(c, e.event, SealedOver(e))
  }

  /** Two appended events were sealed over different texts with one digest. */
  predicate AppendsCollide(c: Crypto, entries: seq<Entry>, i: nat, j: nat) {
    && i < j < |entries| && AppendInput(c, entries[i]) != AppendInput(c, entries[j])
    && c.sha(AppendInput(c, entries[i])) == c.sha(AppendInput(c, entries[j]))
  }

  /** The text that verifying the memory log hashes for an event, were it the next one in memory. */
  function MemoryInput(c: Crypto, entries: seq<Entry>, i: nat): string
    requires i < |entries|
  {
    HashInput(c, entries[i].event, Head(MemoryEvents(entries[..i])))
  }

  /** Verifying hashes another text than appending did, with the same digest. */
  predicate VerifyingCollides(c: Crypto, entries: seq<Entry>, i: nat) {
    && i < |entries| && MemoryInput(c, entries, i) != AppendInput(c, entries[i])
    && c.sha(MemoryInput(c, entries, i)) == c.sha(AppendInput(c, entries[i]))
  }

  /** Somewhere in the log two different texts that were hashed, or are in verifying it, share a digest. */
  ghost predicate LogCollision(c: Crypto, entries: seq<Entry>) {
    (exists i: nat, j: nat :: AppendsCollide(c, entries, i, j)) || exists i: nat :: VerifyingCollides(c, entries, i)
  }

  lemma CollisionStays(c: Crypto, front: seq<Entry>, e: Entry)
    ensures LogCollision(c, front) ==> LogCollision(c, front + [e])
  {
    hide AppendInput, HashInput, MemoryEvents, Head;
    var all := front + [e];
    if i: nat, j: nat :| AppendsCollide(c, front, i, j) {
      assert AppendsCollide(c, all, i, j);
    } else if i: nat :| VerifyingCollides(c, front, i) {
      assert all[..i] == front[..i];
      assert VerifyingCollides(c, all, i);
    }
  }

  lemma HashesDiffer(c: Crypto, entries: seq<Entry>, i: nat, j: nat)
    requires Digest(c) && ShowsId(c) && Linked(c, entries) && EachOnce(entries) && i < j < |entries|
    requires '|' !in SealedOver(entries[0])
    ensures entries[i].event.eventHash != entries[j].event.eventHash || AppendsCollide(c, entries, i, j)
  {
    var a, b := entries[i], entries[j];
    assert '|' !in SealedOver(a) by { if i > 0 { assert entries[i].prev == Some(LinkOf(entries[i - 1].event)); } }
    assert entries[j].prev == Some(LinkOf(entries[j - 1].event));
    BuiltOver(c, a);
    BuiltOver(c, b);
    if AppendInput(c, a) == AppendInput(c, b) {
      SplitUnique(SealedOver(a), Body(c, a.event), SealedOver(b), Body(c, b.event));
      assert false;
    }
  }

  lemma BuiltOver(c: Crypto, e: Entry)
    requires e.event == Build(c, e.event.content, e.prev)
    ensures e.event.eventHash == c.sha(AppendInput(c, e))
  {
  }

  predicate Fell(entries: seq<Entry>, i: nat, e: Event) {
    i < |entries| && entries[i].inMemory && entries[i].event == e
  }

  ghost predicate FellSomewhere(entries: seq<Entry>, e: Event) {
    exists i: nat :: Fell(entries, i, e)
  }

  ghost predicate AllFell(entries: seq<Entry>, mem: seq<Event>) {
    forall k :: 0 <= k < |mem| ==> FellSomewhere(entries, mem[k])
  }

  lemma {:induction false} AllInMemory(entries: seq<Entry>)
    requires InMemory(entries)
    ensures MemoryEvents(entries) == Events(entries)
    decreases |entries|
  {
    if entries != [] {
      var n := |entries| - 1;
      AllInMemory(entries[..n]);
      assert Events(entries) == Events(entries[..n]) + [entries[n].event];
    }
  }

  /** Every memory event is a fallen-back entry. */
  lemma {:induction false} MemoryEventsFell(entries: seq<Entry>)
    ensures AllFell(entries, MemoryEvents(entries))
    decreases |entries|
  {
    if entries != [] {
      var n := |entries| - 1;
      var front := entries[..n];
      MemoryEventsFell(front);
      var mem, before := MemoryEvents(entries), MemoryEvents(front);
      forall k | 0 <= k < |mem| ensures FellSomewhere(entries, mem[k]) {
        if k < |before| {
          var i: nat :| Fell(front, i, before[k]);
          assert Fell(entries, i, mem[k]);
        } else {
          assert Fell(entries, n, mem[k]);
        }
      }
    }
  }

  /** The memory log passes `verify_chain` exactly when it is empty, or no event was stored in the
      database before one that fell back to memory and the first event was sealed over no hash; or a
      collision is at hand. */
  lemma {:induction false} MemoryLogVerifies(c: Crypto, entries: seq<Entry>)
    requires Digest(c) && ShowsId(c) && Linked(c, entries) && EachOnce(entries)
    requires entries != [] ==> '|' !in SealedOver(entries[0])
    ensures || (Verified(c, MemoryEvents(entries)) <==>
                MemoryEvents(entries) == [] || (MemoryFirst(entries) && SealedOver(entries[0]) == ""))
            || LogCollision(c, entries)
    decreases |entries|
  {
    hide MemoryEvents, MemoryFirst, Verified, Build, Linked, EachOnce, Digest, ShowsId, Head, SealedOver, LogCollision;
    if entries != [] {
      var n := |entries| - 1;
      var front, e := entries[..n], entries[n];
      assert entries == front + [e];
      LinkedFront(c, entries);
      if n > 0 { assert front[0] == entries[0] && front[n - 1] == entries[n - 1]; }
      MemoryLogVerifies(c, front);
      HeadMatches(c, entries);
      LastSealed(c, entries);
      LastEntry(front, e);
      CollisionStays(c, front, e);
      NothingInMemory(c);
    } else {
      NothingInMemory(c);
    }
  }

  lemma LinkedFront(c: Crypto, entries: seq<Entry>)
    requires Linked(c, entries) && EachOnce(entries) && entries != []
    ensures var n := |entries| - 1;
            && Linked(c, entries[..n]) && EachOnce(entries[..n])
            && entries[n].event == Build(c, entries[n].event.content, entries[n].prev)
  {
    hide Build;
  }

  lemma NothingInMemory(c: Crypto)
    ensures MemoryFirst([]) && MemoryEvents([]) == [] && Verified(c, []) && Head([]) == ""
  {
  }

  lemma LastEntry(front: seq<Entry>, e: Entry)
    ensures MemoryEvents(front + [e]) == if e.inMemory then MemoryEvents(front) + [e.event] else MemoryEvents(front)
    ensures front != [] && front[|front| - 1].inMemory ==> MemoryEvents(front) != []
    ensures MemoryFirst(front + [e]) <==>
            MemoryFirst(front) && (e.inMemory && front != [] ==> front[|front| - 1].inMemory)
  {
    assert (front + [e])[..|front|] == front;
    LastEntryOrder(front, e);
    hide MemoryFirst;
  }

  lemma LastEntryOrder(front: seq<Entry>, e: Entry)
    ensures MemoryFirst(front + [e]) <==>
            MemoryFirst(front) && (e.inMemory && front != [] ==> front[|front| - 1].inMemory)
  {
    var all := front + [e];
    var n := |front|;
    assert forall i :: 0 <= i < n ==> all[i] == front[i];
    if MemoryFirst(all) {
      forall i, j | 0 <= i < j < n && front[j].inMemory ensures front[i].inMemory { assert all[j].inMemory; }
      if e.inMemory && front != [] { assert all[n].inMemory && all[n - 1].inMemory; }
    }
    if MemoryFirst(front) && (e.inMemory && front != [] ==> front[n - 1].inMemory) {
      forall i, j | 0 <= i < j < |all| && all[j].inMemory ensures all[i].inMemory {
        if j == n { assert i == n - 1 || front[i].inMemory; }
      }
    }
  }

  /** The last event, were it in memory, verifies over the memory events before it exactly when these
      end in the hash it was sealed over; or verifying it collides. */
  lemma LastSealed(c: Crypto, entries: seq<Entry>)
    requires entries != [] && entries[|entries| - 1].event == Build(c, entries[|entries| - 1].event.content, entries[|entries| - 1].prev)
    ensures var n := |entries| - 1; var events := MemoryEvents(entries[..n]); var e := entries[n];
            || (Verified(c, events + [e.event]) <==> Verified(c, events) && Head(events) == SealedOver(e))
            || LogCollision(c, entries)
  {
    var e := entries[|entries| - 1];
    var events := MemoryEvents(entries[..|entries| - 1]);
    hide MemoryEvents, Build;
    var all := events + [e.event];
    var n := |events|;
    assert all[..n] == events;
    assert PrevHash(all, n) == Head(events);
    BuiltOver(c, e);
    if Verified(c, all) {
      VerifiedPrefix(c, all, n);
      assert Sealed(c, all, n);
      if MemoryInput(c, entries, |entries| - 1) == AppendInput(c, e) {
        var body := Body(c, e.event);
        assert Head(events) + "|" + body == Head(events) + ("|" + body);
        assert SealedOver(e) + "|" + body == SealedOver(e) + ("|" + body);
        SameTail(Head(events), SealedOver(e), "|" + body);
      } else {
        assert VerifyingCollides(c, entries, |entries| - 1);
      }
    }
    if Verified(c, events) && Head(events) == SealedOver(e) {
      forall i | 0 <= i < |all| ensures Sealed(c, all, i) {
        if i < n { assert Sealed(c, events, i); assert Input(c, all, i) == Input(c, events, i); }
      }
    }
  }

  lemma SameTail(p: string, q: string, t: string)
    requires p + t == q + t
    ensures p == q
  {
    assert |p| == |q|;
    assert (p + t)[..|p|] == p && (q + t)[..|q|] == q;
  }

  /** The hash `verify_chain` carries into a memory event is the one it was sealed over exactly when
      the event before it is in memory too (or there is none and nothing was sealed over). */
  lemma HeadMatches(c: Crypto, entries: seq<Entry>)
    requires Digest(c) && ShowsId(c) && Linked(c, entries) && EachOnce(entries) && entries != [] && '|' !in SealedOver(entries[0])
    ensures var n := |entries| - 1;
            || (Head(MemoryEvents(entries[..n])) == SealedOver(entries[n]) <==>
                if n == 0 then SealedOver(entries[0]) == "" else entries[n - 1].inMemory)
            || LogCollision(c, entries)
  {
    var n := |entries| - 1;
    var front := entries[..n];
    var mem := MemoryEvents(front);
    if n > 0 {
      assert entries[n].prev == Some(LinkOf(entries[n - 1].event));
      assert entries[n - 1].event == Build(c, entries[n - 1].event.content, entries[n - 1].prev);
      if entries[n - 1].inMemory {
        assert mem == MemoryEvents(front[..n - 1]) + [entries[n - 1].event];
      } else if mem != [] {
        StoredHead(c, entries);
      }
    }
  }

  /** Behind a stored event, the last memory event is an earlier one, with another hash. */
  lemma StoredHead(c: Crypto, entries: seq<Entry>)
    requires Digest(c) && ShowsId(c) && Linked(c, entries) && EachOnce(entries) && |entries| > 1 && '|' !in SealedOver(entries[0])
    requires var n := |entries| - 1; !entries[n - 1].inMemory && MemoryEvents(entries[..n]) != []
    ensures var n := |entries| - 1;
            Head(MemoryEvents(entries[..n])) != entries[n - 1].event.eventHash || LogCollision(c, entries)
  {
    hide Linked, EachOnce, Digest, ShowsId, Build, AppendsCollide;
    var n := |entries| - 1;
    var mem := MemoryEvents(entries[..n]);
    MemoryEventsFell(entries[..n]);
    var i: nat :| Fell(entries[..n], i, mem[|mem| - 1]);
    HashesDiffer(c, entries, i, n - 1);
  }

  /** In a process that never reaches the database, every project's log verifies at all times. */
  lemma MemoryOnlyVerifies(c: Crypto, steps: seq<Step>, p: string)
    requires Digest(c)
    requires forall k :: 0 <= k < |steps| ==> steps[k].lookup == NoPool && steps[k].write != Stored
    ensures Verified(c, Get(Run(c, steps).mem, p))
  {
    var entries := Get(Run(c, steps).returned, p);
    RunChains(c, steps);
    assert Consistent(c, Run(c, steps), p);
    OnlyMemory(c, steps, p);
    AllInMemory(entries);
    forall i | 0 <= i < |entries| ensures Sealed(c, Events(entries), i) {
      assert entries[i].event == Build(c, entries[i].event.content, entries[i].prev);
      if i > 0 { assert entries[i].prev == Some(LinkOf(entries[i - 1].event)); }
    }
  }

  lemma {:induction false} OnlyMemory(c: Crypto, steps: seq<Step>, p: string)
    requires forall k :: 0 <= k < |steps| ==> steps[k].lookup == NoPool && steps[k].write != Stored
    ensures var entries := Get(Run(c, steps).returned, p);
            InMemory(entries) && (entries != [] ==> entries[0].prev == None)
    decreases |steps|
  {
    if steps != [] {
      var front := steps[..|steps| - 1];
      OnlyMemory(c, front, p);
      RunChains(c, front);
      assert Consistent(c, Run(c, front), p);
      assert steps[|steps| - 1].lookup == NoPool;
    }
  }

  /** The same for every run of the process, whatever storage did: fallbacks are only verifiable
      while nothing of the project has gone to the database before them. */
  lemma RunVerifies(c: Crypto, steps: seq<Step>, p: string)
    requires Digest(c) && ShowsId(c)
    requires var entries := Get(Run(c, steps).returned, p);
             EachOnce(entries) && (entries != [] ==> '|' !in SealedOver(entries[0]))
    ensures var entries := Get(Run(c, steps).returned, p);
            var mem := Get(Run(c, steps).mem, p);
            || (Verified(c, mem) <==> mem == [] || (entries != [] && MemoryFirst(entries) && SealedOver(entries[0]) == ""))
            || LogCollision(c, entries)
  {
    RunChains(c, steps);
    assert Consistent(c, Run(c, steps), p);
    MemoryLogVerifies(c, Get(Run(c, steps).returned, p));
  }

  lemma RunStep(c: Crypto, steps: seq<Step>, step: Step)
    ensures Run(c, steps + [step]) == Append(c, Run(c, steps), step)
  {
    hide Append;
    assert (steps + [step])[..|steps|] == steps;
  }

  /** A run whose memory log does not verify: one event is stored, the write of the next one fails. */
  lemma FallbackAfterStore(c: Crypto, first: Content, second: Content)
    requires Digest(c)
    requires first.projectId == second.projectId != "" && first.eventType != "" && second.eventType != ""
    ensures var st := Run(c, [Step(first, NoRow, Stored), Step(second, NoRow, WriteFailed)]);
            var p := first.projectId;
            !Verified(c, Get(st.mem, p)) || LogCollision(c, Get(st.returned, p))
  {
    hide Run, Build, Digest, LogCollision, Verified;
    var x, y := Step(first, NoRow, Stored), Step(second, NoRow, WriteFailed);
    var a := Build(c, first, None);
    var b := Build(c, second, Some(LinkOf(a)));
    RunNothing(c);
    RunStep(c, [], x);
    RunStep(c, [x], y);
    assert [] + [x] == [x] && [x] + [y] == [x, y];
    var p := first.projectId;
    var one := Run(c, [x]);
    assert one.mem == map[] && one.last[p] == LinkOf(a) && Get(one.returned, p) == [Entry(a, None, false)];
    assert Get(Run(c, [x, y]).mem, p) == [b];
    assert Get(Run(c, [x, y]).returned, p) == [Entry(a, None, false), Entry(b, Some(LinkOf(a)), true)];
    OneInMemory(c, first, second);
  }

  lemma RunNothing(c: Crypto)
    ensures Run(c, []) == EMPTY
  {
  }

  lemma OneInMemory(c: Crypto, first: Content, second: Content)
    requires Digest(c)
    ensures var a := Build(c, first, None); var b := Build(c, second, Some(LinkOf(a)));
            !Verified(c, [b]) || LogCollision(c, [Entry(a, None, false), Entry(b, Some(LinkOf(a)), true)])
  {
    hide LogCollision, Verified;
    var a := Build(c, first, None);
    var b := Build(c, second, Some(LinkOf(a)));
    var stored, fallen := Entry(a, None, false), Entry(b, Some(LinkOf(a)), true);
    var entries := [stored, fallen];
    assert entries[..1] == [stored] && [stored][..0] == [];
    assert MemoryEvents([stored]) == [];
    assert [] + [b] == [b];
    LastSealed(c, entries);
    assert a.eventHash != "";
  }
}

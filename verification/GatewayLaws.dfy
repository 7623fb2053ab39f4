/** What one logical model call amounts to, attempt by attempt (mas/runtime/provider_gateway.py). */
module GatewayLaws {
  import opened Phases
  import opened Policy
  import opened Workflow

  function Tokens(attempts: seq<Attempt>): nat {
    if attempts == [] then 0 else attempts[0].answer.tokens + Tokens(attempts[1..])
  }

  function Cost(attempts: seq<Attempt>): real {
    if attempts == [] then 0.0 else attempts[0].answer.cost + Cost(attempts[1..])
  }

  /** An attempt that ends the call: a usable answer or a final error. */
  predicate Ends(a: Attempt) {
    a.answer.ok || a.final
  }

  predicate SameText(r: Response, a: Attempt) {
    r.text == a.answer.text && r.reading == a.answer.reading
  }

  /** The attempts that reach a provider are those before the first at which the gate is closed, up to
      the first that ends the call. */
  lemma {:induction false} ExecutedLaws(c: Controls, p: Phase, attempts: seq<Attempt>)
    ensures var n := Executed(c, p, attempts);
            && n <= |attempts|
            && (forall k :: 0 <= k < n ==> Gate(c, p, attempts[k].at) == Allowed)
            && (forall k :: 0 <= k < n - 1 ==> !Ends(attempts[k]))
            && (n < |attempts| ==> (n > 0 && Ends(attempts[n - 1])) || Gate(c, p, attempts[n].at) != Allowed)
    decreases |attempts|
  {
    hide Gate;
    if attempts != [] && Gate(c, p, attempts[0].at) == Allowed && !Ends(attempts[0]) {
      var rest := attempts[1..];
      ExecutedLaws(c, p, rest);
      var n := Executed(c, p, attempts);
      forall k | 0 <= k < n ensures Gate(c, p, attempts[k].at) == Allowed { if k > 0 { assert attempts[k] == rest[k - 1]; } }
      forall k | 0 <= k < n - 1 ensures !Ends(attempts[k]) { if k > 0 { assert attempts[k] == rest[k - 1]; } }
    }
  }

  lemma {:induction false} GatewayFrom(c: Controls, p: Phase, attempts: seq<Attempt>, tokens: nat, cost: real)
    ensures var n := Executed(c, p, attempts); var r := Gateway(c, p, attempts, tokens, cost);
            && n <= |attempts|
            && r.tokens == tokens + Tokens(attempts[..n]) && r.cost == cost + Cost(attempts[..n])
            && (r.ok <==> n > 0 && attempts[n - 1].answer.ok)
            && (if n > 0 && Ends(attempts[n - 1]) then SameText(r, attempts[n - 1]) else r.text == "" && r.reading == Unparsed)
            && (r.refused <==> n < |attempts| && (n == 0 || !Ends(attempts[n - 1])))
    decreases |attempts|
  {
    hide Gate;
    ExecutedLaws(c, p, attempts);
    if attempts != [] && Gate(c, p, attempts[0].at) == Allowed {
      var a, rest := attempts[0], attempts[1..];
      var n := Executed(c, p, attempts);
      assert attempts[..n][0] == a && attempts[..n][1..] == rest[..n - 1];
      if !Ends(a) {
        GatewayFrom(c, p, rest, tokens + a.answer.tokens, cost + a.answer.cost);
        ExecutedLaws(c, p, rest);
        if n > 1 { assert attempts[n - 1] == rest[n - 2]; }
      } else {
        assert rest[..0] == [];
      }
    } else {
      assert attempts[..0] == [];
    }
  }

  /** A logical call: its usage is that of exactly the attempts made; it succeeds exactly when the last
      of them does; its text is that of the attempt that ended it, if one did; and it is refused exactly when the gate stopped it before
      some attempt, none of those made having ended it. */
  lemma AnswerLaws(c: Controls, p: Phase, attempts: seq<Attempt>)
    ensures var n := Executed(c, p, attempts); var r := Answer(c, p, attempts);
            && n <= |attempts|
            && r.tokens == Tokens(attempts[..n]) && r.cost == Cost(attempts[..n])
            && (r.ok <==> n > 0 && attempts[n - 1].answer.ok)
            && (if n > 0 && Ends(attempts[n - 1]) then SameText(r, attempts[n - 1]) else r.text == "" && r.reading == Unparsed)
            && (r.refused <==> n < |attempts| && (n == 0 || !Ends(attempts[n - 1])))
  {
    GatewayFrom(c, p, attempts, 0, 0.0);
  }

  lemma NoneOnceKilled(c: Controls, p: Phase, attempts: seq<Attempt>)
    ensures c.killed ==> Executed(c, p, attempts) == 0
  {
  }
}

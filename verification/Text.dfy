/** Character classes and position-style reasoning about strings.

    A truncated response is a string that stops in the middle of some intended text.
    `Agrees` says that a string follows an intended text as far as the string goes,
    so one statement covers the complete text and every cut of it. */
module Text {

  /** The characters for which Python's `str.isspace` holds. */
  predicate IsSpace(c: char) {
    || '\t' <= c <= '\r'
    || '\U{1C}' <= c <= ' '
    || c in {'\U{85}', '\U{A0}', '\U{1680}', '\U{2028}', '\U{2029}', '\U{202F}', '\U{205F}', '\U{3000}'}
    || '\U{2000}' <= c <= '\U{200A}'
  }

  /** JSON insignificant whitespace, section 2 of RFC 8259. */
  predicate IsBlank(c: char) {
    c == ' ' || c == '\t' || c == '\n' || c == '\r'
  }

  predicate IsDigit(c: char) {
    '0' <= c <= '9'
  }

  datatype Class = Blank | Space | Digit

  predicate In(c: char, k: Class) {
    match k
    case Blank => IsBlank(c)
    case Space => IsSpace(c)
    case Digit => IsDigit(c)
  }

  predicate All(k: Class, t: string) {
    forall x :: 0 <= x < |t| ==> In(t[x], k)
  }

  /** `s` follows `t` from position `i`, as far as `s` goes. */
  ghost predicate Agrees(s: string, i: nat, t: string) {
    forall k {:trigger t[k]} :: 0 <= k < |t| && i + k < |s| ==> s[i + k] == t[k]
  }

  /** All of `t` stands in `s` at position `i`. */
  predicate At(s: string, i: nat, t: string) {
    i + |t| <= |s| && s[i..i + |t|] == t
  }

  lemma AgreesSplit(s: string, i: nat, a: string, b: string)
    ensures Agrees(s, i, a + b) <==> Agrees(s, i, a) && Agrees(s, i + |a|, b)
  {
    var t := a + b;
    if Agrees(s, i, t) {
      assert Agrees(s, i, a) by {
        forall k | 0 <= k < |a| && i + k < |s| ensures s[i + k] == a[k] { assert t[k] == a[k]; }
      }
      assert Agrees(s, i + |a|, b) by {
        forall k | 0 <= k < |b| && i + |a| + k < |s| ensures s[i + |a| + k] == b[k] {
          assert t[|a| + k] == b[k];
          assert s[i + (|a| + k)] == t[|a| + k];
        }
      }
    }
    if Agrees(s, i, a) && Agrees(s, i + |a|, b) {
      forall k | 0 <= k < |t| && i + k < |s| ensures s[i + k] == t[k] {
        if k >= |a| {
          assert s[i + |a| + (k - |a|)] == b[k - |a|];
        }
      }
    }
  }

  lemma AgreesFirst(s: string, i: nat, t: string)
    requires Agrees(s, i, t)
    ensures i < |s| && |t| > 0 ==> s[i] == t[0]
  {
    assert i < |s| && |t| > 0 ==> s[i + 0] == t[0];
  }

  lemma AgreesAt(s: string, i: nat, t: string)
    requires i + |t| <= |s|
    ensures Agrees(s, i, t) <==> At(s, i, t)
  {
    if Agrees(s, i, t) {
      assert s[i..i + |t|] == t;
    }
    if At(s, i, t) {
      forall k | 0 <= k < |t| ensures s[i + k] == t[k] { assert s[i..i + |t|][k] == t[k]; }
    }
  }

  /** The first position from `i` on whose character is not in the class (or the end). */
  function Skip(k: Class, s: string, i: nat): (j: nat)
    requires i <= |s|
    ensures i <= j <= |s|
    decreases |s| - i
  {
    if i < |s| && In(s[i], k) then Skip(k, s, i + 1) else i
  }

  lemma {:induction false} SkipStops(k: Class, s: string, i: nat)
    requires i <= |s|
    ensures Skip(k, s, i) < |s| ==> !In(s[Skip(k, s, i)], k)
    ensures forall x :: i <= x < Skip(k, s, i) ==> In(s[x], k)
    decreases |s| - i
  {
    if i < |s| && In(s[i], k) { SkipStops(k, s, i + 1); }
  }

  /** Skipping over a run of class characters stops at the run's end or at the cut. */
  lemma SkipRun(k: Class, s: string, i: nat, run: string)
    requires i <= |s| && All(k, run) && Agrees(s, i, run)
    requires i + |run| < |s| ==> !In(s[i + |run|], k)
    ensures Skip(k, s, i) == if i + |run| <= |s| then i + |run| else |s|
  {
    SkipStops(k, s, i);
    var stop := if i + |run| <= |s| then i + |run| else |s|;
    forall x | i <= x < stop ensures In(s[x], k) {
      assert s[i + (x - i)] == run[x - i];
    }
    assert stop < |s| ==> !In(s[stop], k);
  }

  /** The whitespace loop of the readers: `while index < len(text) and text[index].isspace()`. */
  method SkipSpaces(s: string, i: nat) returns (j: nat)
    requires i <= |s|
    ensures j == Skip(Space, s, i)
    ensures j < |s| ==> !IsSpace(s[j])
    ensures i <= j <= |s| && forall k :: i <= k < j ==> IsSpace(s[k])
  {
    j := i;
    while j < |s| && IsSpace(s[j])
      invariant i <= j <= |s|
      invariant Skip(Space, s, i) == Skip(Space, s, j)
      invariant forall k :: i <= k < j ==> IsSpace(s[k])
    {
      j := j + 1;
    }
  }

  /** The least index at or after `i` where `c` stands, or -1: Python's `str.find` on one character. */
  function Find(s: string, c: char, i: nat): (r: int)
    requires i <= |s|
    ensures r == -1 || (i <= r < |s| && s[r] == c)
    ensures forall k :: i <= k < (if r == -1 then |s| else r) ==> s[k] != c
    decreases |s| - i
  {
    if i == |s| then -1 else if s[i] == c then i else Find(s, c, i + 1)
  }

  function LStrip(s: string): string {
    s[Skip(Space, s, 0)..]
  }

  function RStrip(s: string): (r: string)
    ensures r <= s
    ensures |r| > 0 ==> !IsSpace(r[|r| - 1])
    ensures forall k :: |r| <= k < |s| ==> IsSpace(s[k])
  {
    if |s| > 0 && IsSpace(s[|s| - 1]) then RStrip(s[..|s| - 1]) else s
  }

  /** Python's `str.strip`. */
  function Strip(s: string): string {
    RStrip(LStrip(s))
  }
}

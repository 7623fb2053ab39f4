/** Recovering the completed members of a truncated first object (mas/orchestrator.py). */
module MemberReader {
  import opened Collections
  import opened Text
  import opened JsonSyntax
  import opened JsonDecoder
  import opened RootScanner

  type Members' = map<Key, Json>

  /** A value was expected at `i` and could not be decoded: a character no value starts with makes
      the object unreliable, anything else is an ordinary truncation. */
  predicate LooksLikeValue(lex: Lexicon, c: char) {
    c in {'"', '{', '[', '-', 't', 'f', 'n'} || lex.digit(c)
  }

  /** The reader where a member is expected. */
  function ReadMember(lex: Lexicon, s: string, i: nat, acc: Members'): Option<Members'>
    requires i <= |s|
    decreases |s| - i, 1
  {
    var k := Skip(Space, s, i);
    if k == |s| || s[k] == '}' then Some(acc)
    else if s[k] != '"' then None
    else
      match DecodeString(s, k + 1)
      case Fail => if Find(s, '"', k + 1) == -1 then Some(acc) else None
      case Ok(ps, keyEnd) =>
        var c := Skip(Space, s, keyEnd);
        if c == |s| then Some(acc)
        else if s[c] != ':' then None
        else ReadValue(lex, s, Unescape(ps), Skip(Space, s, c + 1), acc)
  }

  /** The reader where the value of `key` is expected. */
  function ReadValue(lex: Lexicon, s: string, key: Key, j: nat, acc: Members'): Option<Members'>
    requires j <= |s|
    decreases |s| - j, 1
  {
    if j == |s| then Some(acc)
    else
      match Decode(s, j)
      case Fail => if LooksLikeValue(lex, s[j]) then Some(acc) else None
      case Ok(v, end) => ReadDelimiter(lex, s, end, acc[key := v])
  }

  /** The reader after a completed value. */
  function ReadDelimiter(lex: Lexicon, s: string, i: nat, acc: Members'): Option<Members'>
    requires i <= |s|
    decreases |s| - i, 2
  {
    var k := Skip(Space, s, i);
    if k == |s| || s[k] == '}' then Some(acc)
    else if s[k] == ',' then ReadMember(lex, s, k + 1, acc)
    else None
  }

  function Completed(lex: Lexicon, text: string): Option<Members'> {
    match FirstRoot(lex, text)
    case None => None
    case Some(root) => MembersOf(lex, root)
  }

  function MembersOf(lex: Lexicon, root: Root): Option<Members'> {
    var fragment := LStrip(root.fragment);
    if fragment == "" || fragment[0] != '{' then None
    else if root.complete then
      match root.value
      case Some(Object(members)) => Some(members)
      case _ => None
    else ReadMember(lex, fragment, 1, map[])
  }

  /** `_completed_first_object_members`: one pass over the fragment with an index and a flag. */
  method CompletedFirstObjectMembers(lex: Lexicon, text: string) returns (r: Option<Members'>)
    ensures r == Completed(lex, text)
  {
    hide Decode, DecodeString, Unescape, FirstRoot, Skip, Find, LooksLikeValue, IsSpace;
    var root := FirstJsonRoot(lex, text);
    if root.None? {
      return None;
    }
    var fragment := LStrip(root.value.fragment);
    if fragment == "" || fragment[0] != '{' {
      return None;
    }
    if root.value.complete {
      match root.value.value {
        case Some(Object(members)) => return Some(members);
        case _ => return None;
      }
    }
    var recovered: Members' := map[];
    var index := 1;
    var expectMember := true;
    ghost var goal := ReadMember(lex, fragment, 1, map[]);
    assert goal == Completed(lex, text);
    while true
      invariant 1 <= index <= |fragment|
      invariant goal ==
                if expectMember then ReadMember(lex, fragment, index, recovered)
                else ReadDelimiter(lex, fragment, index, recovered)
      decreases |fragment| - index, !expectMember
    {
      index := SkipSpaces(fragment, index);
      if index >= |fragment| {
        return Some(recovered);
      }
      if expectMember {
        if fragment[index] == '}' {
          return Some(recovered);
        }
        if fragment[index] != '"' {
          return None;
        }
        var key := DecodeString(fragment, index + 1);
        if key.Fail? {
          return if Find(fragment, '"', index + 1) == -1 then Some(recovered) else None;
        }
        index := SkipSpaces(fragment, key.end);
        if index >= |fragment| {
          return Some(recovered);
        }
        if fragment[index] != ':' {
          return None;
        }
        index := SkipSpaces(fragment, index + 1);
        if index >= |fragment| {
          return Some(recovered);
        }
        var value := Decode(fragment, index);
        if value.Fail? {
          return if LooksLikeValue(lex, fragment[index]) then Some(recovered) else None;
        }
        recovered := recovered[Unescape(key.value) := value.value];
        index := value.end;
        expectMember := false;
      } else if fragment[index] == ',' {
        index := index + 1;
        expectMember := true;
      } else if fragment[index] == '}' {
        return Some(recovered);
      } else {
        return None;
      }
    }
  }
}

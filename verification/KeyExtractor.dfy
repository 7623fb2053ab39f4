/** The second extractor: find a quoted name at depth one and decode what follows (mas/orchestrator.py). */
module KeyExtractor {
  import opened Collections
  import opened Text
  import opened JsonSyntax
  import opened JsonDecoder

  datatype Depth = Depth(objects: nat, arrays: nat, inString: bool, escape: bool)

  function Less(n: nat): nat {
    if n == 0 then 0 else n - 1
  }

  function DepthStep(d: Depth, c: char): Depth {
    if d.inString then
      if d.escape then d.(escape := false)
      else if c == '\\' then d.(escape := true)
      else if c == '"' then d.(inString := false)
      else d
    else if c == '"' then d.(inString := true)
    else if c == '{' then d.(objects := d.objects + 1)
    else if c == '}' then d.(objects := Less(d.objects))
    else if c == '[' then d.(arrays := d.arrays + 1)
    else if c == ']' then d.(arrays := Less(d.arrays))
    else d
  }

  /** The counters after `s[..stop]`. */
  function DepthTo(s: string, stop: nat): Depth
    requires stop <= |s|
  {
    if stop == 0 then Depth(0, 0, false, false) else DepthStep(DepthTo(s, stop - 1), s[stop - 1])
  }

  /** `_json_container_depth_before`. */
  method JsonContainerDepthBefore(text: string, stop: nat) returns (objectDepth: nat, arrayDepth: nat)
    requires stop <= |text|
    ensures (objectDepth, arrayDepth) == (DepthTo(text, stop).objects, DepthTo(text, stop).arrays)
  {
    objectDepth, arrayDepth := 0, 0;
    var inString, escape := false, false;
    for i := 0 to stop
      invariant DepthTo(text, i) == Depth(objectDepth, arrayDepth, inString, escape)
    {
      var ch := text[i];
      if inString {
        if escape {
          escape := false;
        } else if ch == '\\' {
          escape := true;
        } else if ch == '"' {
          inString := false;
        }
      } else if ch == '"' {
        inString := true;
      } else if ch == '{' {
        objectDepth := objectDepth + 1;
      } else if ch == '}' {
        objectDepth := if objectDepth == 0 then 0 else objectDepth - 1;
      } else if ch == '[' {
        arrayDepth := arrayDepth + 1;
      } else if ch == ']' {
        arrayDepth := if arrayDepth == 0 then 0 else arrayDepth - 1;
      }
    }
  }

  predicate AtDepthOne(s: string, k: nat)
    requires k <= |s|
  {
    DepthTo(s, k).objects == 1 && DepthTo(s, k).arrays == 0
  }

  function Needle(key: string): string {
    "\"" + key + "\""
  }

  /** Python's `str.find` on a text. */
  function FindText(s: string, t: string, i: nat): (r: int)
    requires i <= |s|
    ensures r == -1 || (i <= r && r + |t| <= |s| && At(s, r, t))
    ensures forall k :: i <= k < (if r == -1 then |s| else r) ==> !At(s, k, t)
    decreases |s| - i
  {
    if At(s, i, t) then i
    else if i == |s| then -1
    else FindText(s, t, i + 1)
  }

  /** The value after the first colon from `p` on. */
  function TakeAfter(s: string, p: nat): Option<Json>
    requires p <= |s|
  {
    var colon := Find(s, ':', p);
    if colon == -1 then None
    else
      var j := Skip(Space, s, colon + 1);
      if j == |s| then None
      else
        match Decode(s, j)
        case Fail => None
        case Ok(_, end) => Loads(s[j..end])
  }

  function ExtractFrom(s: string, needle: string, start: nat): Option<Json>
    requires start <= |s| && needle != ""
    decreases |s| - start
  {
    var k := FindText(s, needle, start);
    if k == -1 then None
    else if AtDepthOne(s, k) then TakeAfter(s, k + |needle|)
    else ExtractFrom(s, needle, k + |needle|)
  }

  /** `_extract_top_level_json_value`. */
  method ExtractTopLevelJsonValue(text: string, key: string) returns (r: Option<Json>)
    ensures r == ExtractFrom(text, Needle(key), 0)
  {
    hide Decode, Loads, DepthTo, At, Find, FindText, Skip, IsSpace;
    var needle := Needle(key);
    var start := 0;
    while true
      invariant start <= |text|
      invariant ExtractFrom(text, needle, 0) == ExtractFrom(text, needle, start)
      decreases |text| - start
    {
      var keyIndex := FindText(text, needle, start);
      if keyIndex == -1 {
        return None;
      }
      var objects, arrays := JsonContainerDepthBefore(text, keyIndex);
      if objects == 1 && arrays == 0 {
        var colon := Find(text, ':', keyIndex + |needle|);
        if colon == -1 {
          return None;
        }
        var valueStart := SkipSpaces(text, colon + 1);
        if valueStart >= |text| {
          return None;
        }
        match Decode(text, valueStart) {
          case Fail => return None;
          case Ok(_, span) => return Loads(text[valueStart..span]);
        }
      }
      start := keyIndex + |needle|;
    }
  }
}

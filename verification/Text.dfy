/** The Python string operations the modelled code relies on. */
module Text {

  lemma {:induction false} FirstIndexExists(s: string, c: char)
    requires c in s
    ensures exists i :: 0 <= i < |s| && s[i] == c && c !in s[..i]
  {
    if s[0] == c {
      assert c !in s[..0];
    } else {
      FirstIndexExists(s[1..], c);
      var i :| 0 <= i < |s[1..]| && s[1..][i] == c && c !in s[1..][..i];
      assert s[..i + 1] == [s[0]] + s[1..][..i];
      assert s[i + 1] == c && c !in s[..i + 1];
    }
  }

  /** `s.split(c)[0]`: the part before the first `c`, all of `s` if there is none. */
  function Before(s: string, c: char): (r: string)
    ensures c !in r
    ensures r <= s
    ensures c in s ==> |r| < |s| && s[|r|] == c
    ensures c !in s ==> r == s
  {
    if c !in s then s
    else
      FirstIndexExists(s, c);
      var i :| 0 <= i < |s| && s[i] == c && c !in s[..i];
      s[..i]
  }

  lemma BeforeConcat(x: string, c: char, y: string)
    requires c !in x
    ensures Before(x + [c] + y, c) == x
  {
    var s := x + [c] + y;
    var r := Before(s, c);
    assert s[|x|] == c;
    assert s[..|x|] == x && s[..|r|] == r;
    assert forall i :: 0 <= i < |x| ==> s[i] in x;
    assert forall i :: 0 <= i < |r| ==> s[i] in r;
  }

  /** `s.split(c, 1)[1]` for an `s` that contains `c`. */
  function After(s: string, c: char): string
    requires c in s
  {
    s[|Before(s, c)| + 1..]
  }

  /** `s.split(c)`. */
  function Split(s: string, c: char): (r: seq<string>)
    ensures r != []
    ensures forall t :: t in r ==> c !in t
    decreases |s|
  {
    var head := Before(s, c);
    if c in s then [head] + Split(s[|head| + 1..], c) else [head]
  }

  /** `c.join(parts)`. */
  function Join(parts: seq<string>, c: char): string {
    if parts == [] then ""
    else if |parts| == 1 then parts[0]
    else parts[0] + [c] + Join(parts[1..], c)
  }

  lemma {:induction false} SplitJoin(parts: seq<string>, c: char)
    requires parts != [] && forall t :: t in parts ==> c !in t
    ensures Split(Join(parts, c), c) == parts
  {
    var s := Join(parts, c);
    if |parts| == 1 {
      assert s == parts[0];
      assert parts == [parts[0]];
    } else {
      var rest := Join(parts[1..], c);
      assert s == parts[0] + [c] + rest;
      BeforeConcat(parts[0], c, rest);
      assert c in s by {
        assert s[|parts[0]|] == c;
      }
      assert s[|parts[0]| + 1..] == rest;
      SplitJoin(parts[1..], c);
      assert parts == [parts[0]] + parts[1..];
    }
  }

  predicate EndsWith(s: string, t: string) {
    |t| <= |s| && s[|s| - |t|..] == t
  }

  /** Lower case of the ASCII letters. */
  function LowerChar(c: char): char {
    if 'A' <= c <= 'Z' then c - 'A' + 'a' else c
  }

  function Lower(s: string): (r: string)
    ensures |r| == |s|
    ensures forall i :: 0 <= i < |s| ==> r[i] == LowerChar(s[i])
  {
    seq(|s|, i requires 0 <= i < |s| => LowerChar(s[i]))
  }

  /** The characters `str.strip` removes. */
  predicate IsSpace(c: char) {
    || '\U{9}' <= c <= '\U{D}' || '\U{1C}' <= c <= '\U{20}' || c == '\U{85}' || c == '\U{A0}'
    || c == '\U{1680}' || '\U{2000}' <= c <= '\U{200A}' || c == '\U{2028}' || c == '\U{2029}'
    || c == '\U{202F}' || c == '\U{205F}' || c == '\U{3000}'
  }

  function StripLeft(s: string): string {
    if s == "" || !IsSpace(s[0]) then s else StripLeft(s[1..])
  }

  function StripRight(s: string): string {
    if s == "" || !IsSpace(s[|s| - 1]) then s else StripRight(s[..|s| - 1])
  }

  /** `s.strip()`. */
  function Strip(s: string): string {
    StripRight(StripLeft(s))
  }

  predicate AllSpace(s: string) {
    forall i :: 0 <= i < |s| ==> IsSpace(s[i])
  }

  /** `t` is `s` without the white space around it. */
  ghost predicate IsTrimmed(s: string, t: string) {
    && (t == "" || (!IsSpace(t[0]) && !IsSpace(t[|t| - 1])))
    && exists left, right :: s == left + t + right && AllSpace(left) && AllSpace(right)
  }

  lemma {:induction false} StripLeftCuts(s: string) returns (cut: string)
    ensures s == cut + StripLeft(s) && AllSpace(cut)
    ensures StripLeft(s) == "" || !IsSpace(StripLeft(s)[0])
  {
    cut := "";
    if s != "" && IsSpace(s[0]) {
      var rest := StripLeftCuts(s[1..]);
      cut := [s[0]] + rest;
      assert s == [s[0]] + s[1..];
    }
  }

  lemma {:induction false} StripRightCuts(s: string) returns (cut: string)
    ensures s == StripRight(s) + cut && AllSpace(cut)
    ensures StripRight(s) == "" || !IsSpace(StripRight(s)[|StripRight(s)| - 1])
  {
    cut := "";
    if s != "" && IsSpace(s[|s| - 1]) {
      var rest := StripRightCuts(s[..|s| - 1]);
      cut := rest + [s[|s| - 1]];
      assert s == s[..|s| - 1] + [s[|s| - 1]];
    }
  }

  lemma StripIsTrimmed(s: string)
    ensures IsTrimmed(s, Strip(s))
    ensures Strip(s) == "" <==> AllSpace(s)
  {
    var left := StripLeftCuts(s);
    var inner := StripLeft(s);
    var right := StripRightCuts(inner);
    assert s == left + Strip(s) + right;
    if Strip(s) != "" {
      assert Strip(s)[0] == inner[0];
      assert s[|left|] == Strip(s)[0];
    } else {
      assert s == left + right;
    }
  }

  /** Text that neither starts nor ends with white space is left alone. */
  lemma StripIdentity(s: string)
    requires s == "" || (!IsSpace(s[0]) && !IsSpace(s[|s| - 1]))
    ensures Strip(s) == s
  {
  }
}

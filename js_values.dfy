/**
 * The small part of JavaScript's value model and string built-ins that the
 * session wrapper and the FAQ editor rely on: truthiness, `undefined` as the
 * value of a missing property, thrown errors, and `lastIndexOf`, `split`
 * (whose search step is `indexOf`), `toLowerCase`, `startsWith`, `endsWith`
 * and `slice` on strings.
 */
module JsValues {

  /** A JavaScript scalar. Numbers are integers in this model. */
  datatype JsValue = Undefined | Null | Bool(b: bool) | Num(n: int) | Str(s: string)

  datatype Option<T> = None | Some(value: T)

  /** How evaluating an expression ends: with a value, or with a thrown error. */
  datatype Completion<T> = Normal(value: T) | Throw(error: string)

  const TypeError := "TypeError"

  /** ToBoolean: `undefined`, `null`, `false`, `0` and `''` are the falsy values. */
  predicate Truthy(v: JsValue) {
    match v
    case Undefined => false
    case Null => false
    case Bool(b) => b
    case Num(n) => n != 0
    case Str(s) => s != ""
  }

  /** Reading property `key` of a plain object: a missing key reads as `undefined`. */
  function Lookup(obj: map<string, JsValue>, key: string): JsValue {
    if key in obj then obj[key] else Undefined
  }

  /** `s.indexOf(c)`: the first position of `c`, or -1. */
  function IndexOf(s: string, c: char): (i: int)
    ensures -1 <= i < |s|
    ensures i == -1 <==> c !in s
    ensures 0 <= i ==> s[i] == c && c !in s[..i]
  {
    if s == [] then -1
    else if s[0] == c then 0
    else
      var j := IndexOf(s[1..], c);
      if j == -1 then -1
      else
        assert s[..j + 1] == [s[0]] + s[1..][..j];
        j + 1
  }

  /** The first occurrence of `c` is the position characterised by IndexOf's contract. */
  lemma IndexOfIs(s: string, c: char, i: nat)
    requires i < |s| && s[i] == c
    requires forall k :: 0 <= k < i ==> s[k] != c
    ensures IndexOf(s, c) == i
  {
    var j := IndexOf(s, c);
    assert forall k :: 0 <= k < j ==> s[..j][k] == s[k];
  }

  /** `s.lastIndexOf(c)`: the last position of `c`, or -1. */
  function LastIndexOf(s: string, c: char): (i: int)
    ensures -1 <= i < |s|
    ensures i == -1 <==> c !in s
    ensures 0 <= i ==> s[i] == c && c !in s[i + 1..]
  {
    if s == [] then -1
    else if s[|s| - 1] == c then |s| - 1
    else
      var i := LastIndexOf(s[..|s| - 1], c);
      assert s == s[..|s| - 1] + [s[|s| - 1]];
      assert 0 <= i ==> s[i + 1..] == s[..|s| - 1][i + 1..] + [s[|s| - 1]];
      i
  }

  /** `s.slice(0, end)`: a negative `end` counts back from the end of `s`, and `end` is clamped to `s`. */
  function SliceTo(s: string, end: int): (r: string)
    ensures r <= s
    ensures 0 <= end <= |s| ==> r == s[..end]
    ensures end < 0 ==> |r| == if |s| + end < 0 then 0 else |s| + end
    ensures |s| < end ==> r == s
  {
    var e := if end < 0 then (if |s| + end < 0 then 0 else |s| + end)
             else if end > |s| then |s| else end;
    s[..e]
  }

  /** `s.split(sep)` for a one-character separator. */
  function Split(s: string, sep: char): (parts: seq<string>)
    ensures |parts| >= 1
    ensures |parts| == 1 <==> sep !in s
    ensures forall k :: 0 <= k < |parts| ==> sep !in parts[k]
    decreases |s|
  {
    var i := IndexOf(s, sep);
    if i == -1 then [s] else [s[..i]] + Split(s[i + 1..], sep)
  }

  /** `parts.join(sep)`: the inverse of Split. */
  function Join(parts: seq<string>, sep: char): (s: string)
    requires |parts| >= 1
    ensures |s| >= |parts[0]|
    ensures s[..|parts[0]|] == parts[0]
  {
    if |parts| == 1 then parts[0] else parts[0] + [sep] + Join(parts[1..], sep)
  }

  /** A string is the part before position `i`, the character at `i`, and the part after. */
  lemma CutAt(s: string, i: nat)
    requires i < |s|
    ensures s == s[..i] + [s[i]] + s[i + 1..]
  {
  }

  /** One step of Split: the piece before the first separator, then the split of the rest. */
  lemma SplitStep(s: string, sep: char)
    requires sep in s
    ensures Split(s, sep) == [s[..IndexOf(s, sep)]] + Split(s[IndexOf(s, sep) + 1..], sep)
  {
  }

  /** Joining a piece in front of further pieces. */
  lemma JoinCons(head: string, tail: seq<string>, sep: char)
    requires |tail| >= 1
    ensures Join([head] + tail, sep) == head + [sep] + Join(tail, sep)
  {
    assert ([head] + tail)[1..] == tail;
  }

  /** Joining the pieces of a split gives back the string. */
  lemma {:induction false} JoinSplit(s: string, sep: char)
    ensures Join(Split(s, sep), sep) == s
    decreases |s|
  {
    var i := IndexOf(s, sep);
    if i != -1 {
      var head, rest := s[..i], s[i + 1..];
      var tail := Split(rest, sep);
      SplitStep(s, sep);
      assert Split(s, sep) == [head] + tail;
      JoinCons(head, tail, sep);
      JoinSplit(rest, sep);
      assert Join(tail, sep) == rest;
      CutAt(s, i);
    } else {
      assert Split(s, sep) == [s];
    }
  }

  /** Splitting a join of separator-free pieces gives back the pieces. */
  lemma {:induction false} SplitJoin(parts: seq<string>, sep: char)
    requires |parts| >= 1
    requires forall k :: 0 <= k < |parts| ==> sep !in parts[k]
    ensures Split(Join(parts, sep), sep) == parts
    decreases |parts|
  {
    var s := Join(parts, sep);
    if |parts| == 1 {
    } else {
      var rest := Join(parts[1..], sep);
      assert s == parts[0] + [sep] + rest;
      assert s[|parts[0]|] == sep;
      assert s[..|parts[0]|] == parts[0];
      var i := IndexOf(s, sep);
      assert i == |parts[0]|;
      assert s[i + 1..] == rest;
      SplitJoin(parts[1..], sep);
    }
  }

  /** ASCII `toLowerCase` on one character. */
  function LowerChar(c: char): char {
    if 'A' <= c <= 'Z' then (c as int + 32) as char else c
  }

  /** `s.toLowerCase()`, position by position. */
  function ToLowerCase(s: string): (r: string)
    ensures |r| == |s|
    ensures forall k :: 0 <= k < |s| ==> r[k] == LowerChar(s[k])
  {
    if s == [] then [] else [LowerChar(s[0])] + ToLowerCase(s[1..])
  }

  /**
   * Lower-casing keeps every occurrence of a character that is not a letter
   * where it is, and adds none; so its first occurrence stays put.
   */
  lemma LowerCaseKeepsNonLetter(s: string, c: char)
    requires !('A' <= c <= 'Z') && !('a' <= c <= 'z')
    ensures forall k :: 0 <= k < |s| ==> (ToLowerCase(s)[k] == c) == (s[k] == c)
    ensures (c in ToLowerCase(s)) == (c in s)
    ensures IndexOf(ToLowerCase(s), c) == IndexOf(s, c)
  {
    var l := ToLowerCase(s);
    forall k | 0 <= k < |s| ensures (l[k] == c) == (s[k] == c) {
      assert l[k] == LowerChar(s[k]);
    }
    var i := IndexOf(s, c);
    if i != -1 {
      forall k | 0 <= k < i ensures l[k] != c {
        assert s[k] == s[..i][k];
      }
      IndexOfIs(l, c, i);
    } else {
      forall k | 0 <= k < |l| ensures l[k] != c {
        assert s[k] in s;
      }
    }
  }

  /** Lower-casing commutes with dropping a prefix. */
  lemma LowerCaseSuffix(s: string, i: nat)
    requires i <= |s|
    ensures ToLowerCase(s[i..]) == ToLowerCase(s)[i..]
  {
  }

  /** Lower-casing commutes with taking a prefix. */
  lemma LowerCasePrefix(s: string, j: nat)
    requires j <= |s|
    ensures ToLowerCase(s[..j]) == ToLowerCase(s)[..j]
  {
  }

  /** `s.startsWith(p)`. */
  predicate StartsWith(s: string, p: string) {
    |p| <= |s| && s[..|p|] == p
  }

  /** `s.endsWith(p)`. */
  predicate EndsWith(s: string, p: string) {
    |p| <= |s| && s[|s| - |p|..] == p
  }
}

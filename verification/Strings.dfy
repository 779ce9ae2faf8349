/** Cutting text at separators. */
module Strings {
  import opened Terms

  /** Text before the first `sep`, and the text after it if there is one. */
  function Cut(s: string, sep: string): (r: (string, Option<string>))
    requires sep != ""
    ensures r.1.None? ==> r.0 == s
    ensures r.1.Some? ==> s == r.0 + sep + r.1.value
  {
    if sep <= s then ("", Some(s[|sep|..]))
    else if s == "" then ("", None)
    else
      var r := Cut(s[1..], sep);
      ([s[0]] + r.0, r.1)
  }

  function Split(s: string, sep: string): (parts: seq<string>)
    requires sep != ""
    ensures |parts| >= 1
    decreases |s|
  {
    var (head, rest) := Cut(s, sep);
    match rest
    case None => [head]
    case Some(r) => [head] + Split(r, sep)
  }

  /** A front without the first character of the separator is what Cut returns. */
  lemma {:induction false} CutFront(front: string, sep: string, rest: string)
    requires sep != "" && sep[0] !in front
    ensures Cut(front + sep + rest, sep) == (front, Some(rest))
  {
    var s := front + sep + rest;
    if front == "" {
      assert s == sep + rest;
      assert s[|sep|..] == rest;
    } else {
      assert front[0] in front && s[0] == front[0];
      assert front == [front[0]] + front[1..];
      assert s[1..] == front[1..] + sep + rest;
      CutFront(front[1..], sep, rest);
    }
  }

  lemma {:induction false} CutNothing(s: string, sep: string)
    requires sep != "" && sep[0] !in s
    ensures Cut(s, sep) == (s, None)
  {
    if s != "" {
      assert s[0] in s;
      CutNothing(s[1..], sep);
    }
  }

  lemma {:induction false} CutFound(s: string, c: char)
    requires c in s
    ensures Cut(s, [c]).1.Some?
  {
    if s[0] != c {
      CutFound(s[1..], c);
    } else {
      assert [c] <= s;
    }
  }
}

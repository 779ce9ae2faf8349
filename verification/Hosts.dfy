/** Host names as the browser reports them, with the domain appended once too often. */
module Hosts {

  const LOCAL := ".local"

  predicate EndsWith(s: string, suffix: string)
  {
    |suffix| <= |s| && s[|s| - |suffix|..] == suffix
  }

  function TrimSuffix(s: string, suffix: string): string
  {
    if EndsWith(s, suffix) then s[..|s| - |suffix|] else s
  }

  function StripLocal(h: string): string
  {
    if EndsWith(h, LOCAL + LOCAL) then StripLocal(h[..|h| - |LOCAL|]) else h
  }

  function Normalized(h: string): string
  {
    StripLocal(TrimSuffix(h, "."))
  }

  method NormalizeHost(h: string) returns (r: string)
    ensures r == Normalized(h)
    ensures !EndsWith(r, LOCAL + LOCAL)
  {
    r := TrimSuffix(h, ".");
    while EndsWith(r, LOCAL + LOCAL)
      invariant StripLocal(r) == Normalized(h)
      decreases |r|
    {
      EndsTwice(r);
      r := TrimSuffix(r, LOCAL);
    }
  }

  /** `x` followed by `k` copies of the domain. */
  function WithDomain(x: string, k: nat): string
  {
    if k == 0 then x else WithDomain(x, k - 1) + LOCAL
  }

  lemma EndsWithAppended(s: string, suffix: string)
    ensures EndsWith(s + suffix, suffix) && (s + suffix)[..|s + suffix| - |suffix|] == s
  {
  }

  /** A doubled domain is a domain at the end, and another before it. */
  lemma EndsTwice(s: string)
    ensures EndsWith(s, LOCAL + LOCAL) ==> EndsWith(s, LOCAL) && EndsWith(s[..|s| - |LOCAL|], LOCAL)
  {
    if EndsWith(s, LOCAL + LOCAL) {
      var n := |s| - |LOCAL + LOCAL|;
      assert s[n + |LOCAL|..] == s[n..][|LOCAL|..];
      assert s[..|s| - |LOCAL|][n..] == s[n..][..|LOCAL|];
    }
  }

  /** Extra copies go, one stays. */
  lemma {:induction false} StripLeavesOne(x: string, k: nat)
    requires !EndsWith(x, LOCAL)
    ensures StripLocal(WithDomain(x, k)) == WithDomain(x, if k == 0 then 0 else 1)
  {
    var s := WithDomain(x, k);
    if k >= 2 {
      var y := WithDomain(x, k - 2);
      assert WithDomain(x, k - 1) == y + LOCAL;
      assert s == y + LOCAL + LOCAL;
      assert s == y + (LOCAL + LOCAL);
      EndsWithAppended(y, LOCAL + LOCAL);
      assert s[..|s| - |LOCAL|] == WithDomain(x, k - 1);
      StripLeavesOne(x, k - 1);
    } else {
      EndsTwice(s);
      assert WithDomain(x, 0) == x;
      if k == 1 {
        assert s == x + LOCAL && s[..|s| - |LOCAL|] == x;
      }
    }
  }

  /** Every name has this shape. */
  lemma {:induction false} EveryHostDecomposes(s: string) returns (x: string, k: nat)
    ensures s == WithDomain(x, k) && !EndsWith(x, LOCAL)
    decreases |s|
  {
    if EndsWith(s, LOCAL) {
      var n: nat;
      x, n := EveryHostDecomposes(s[..|s| - |LOCAL|]);
      k := n + 1;
    } else {
      x, k := s, 0;
    }
  }

  /** Normalisation of every name: a trailing dot goes, then all copies of the domain but one. */
  lemma NormalizeRemovesCopies(x: string, k: nat, dot: bool)
    requires !EndsWith(x, LOCAL) && (dot || k > 0 || !EndsWith(x, "."))
    ensures Normalized(WithDomain(x, k) + if dot then "." else "") == x + if k == 0 then "" else ".local"
  {
    var s := WithDomain(x, k);
    StripLeavesOne(x, k);
    assert WithDomain(x, 0) == x + "" && WithDomain(x, 1) == x + ".local";
    if dot {
      EndsWithAppended(s, ".");
    } else {
      assert s + "" == s;
      assert k > 0 ==> s[|s| - 1] == 'l';
    }
  }

  /** Every name is of that form, so this is normalisation of all of them. */
  lemma NormalizeComplete(h: string) returns (x: string, k: nat, dot: bool)
    ensures h == WithDomain(x, k) + if dot then "." else ""
    ensures !EndsWith(x, LOCAL) && (dot || k > 0 || !EndsWith(x, "."))
    ensures Normalized(h) == x + if k == 0 then "" else ".local"
  {
    dot := EndsWith(h, ".");
    x, k := EveryHostDecomposes(TrimSuffix(h, "."));
    assert TrimSuffix(h, ".") + (if dot then "." else "") == h;
    NormalizeRemovesCopies(x, k, dot);
  }
}

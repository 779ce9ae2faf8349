/** DNS labels, as the two packages check them, and the node ids made from host names. */
module Labels {

  const MAX_LABEL := 63

  predicate LowerAlnum(c: char)
  {
    'a' <= c <= 'z' || '0' <= c <= '9'
  }

  predicate LabelChar(c: char)
  {
    LowerAlnum(c) || c == '-'
  }

  /** A character class repeated between `lo` and `hi` times. */
  datatype Atom = Atom(chars: char -> bool, lo: nat, hi: nat)

  /** Anchored match of a concatenation of atoms. */
  ghost predicate Matches(re: seq<Atom>, s: string)
  {
    if re == [] then s == []
    else exists k | 0 <= k <= |s| ::
      re[0].lo <= k <= re[0].hi && (forall i | 0 <= i < k :: re[0].chars(s[i])) && Matches(re[1..], s[k..])
  }

  /** The expression ^[a-z0-9][a-z0-9-]{0,62}$. */
  ghost function NodeIdExpression(): seq<Atom>
  {
    [Atom(LowerAlnum, 1, 1), Atom(LabelChar, 0, 62)]
  }

  /** What identity.Validate accepts. */
  ghost predicate ValidNodeId(s: string)
  {
    Matches(NodeIdExpression(), s)
  }

  /** What the loop of validateLabel accepts. */
  predicate ValidLabel(s: string)
  {
    && 1 <= |s| <= MAX_LABEL
    && forall i | 0 <= i < |s| :: LowerAlnum(s[i]) || (s[i] == '-' && i > 0)
  }

  method ValidateLabel(s: string) returns (ok: bool)
    ensures ok == ValidLabel(s)
    ensures ok <==> ValidNodeId(s)
    ensures ok <==> 1 <= |s| <= 63 && s[0] != '-' && forall c | c in s :: 'a' <= c <= 'z' || '0' <= c <= '9' || c == '-'
  {
    ValidatorsAgree(s);
    LabelMeans(s);
    if |s| == 0 || |s| > MAX_LABEL {
      return false;
    }
    for i := 0 to |s|
      invariant forall j | 0 <= j < i :: LowerAlnum(s[j]) || (s[j] == '-' && j > 0)
    {
      if !(LowerAlnum(s[i]) || (s[i] == '-' && i > 0)) {
        return false;
      }
    }
    return true;
  }

  lemma LabelMeans(s: string)
    ensures ValidLabel(s)
            <==> && 1 <= |s| <= 63 && s[0] != '-'
                 && forall c | c in s :: 'a' <= c <= 'z' || '0' <= c <= '9' || c == '-'
  {
    if 1 <= |s| <= 63 && s[0] != '-' && forall c | c in s :: 'a' <= c <= 'z' || '0' <= c <= '9' || c == '-' {
      assert forall i | 0 <= i < |s| :: s[i] in s;
    }
  }

  /** The regular expression of one package and the loop of the other accept the same strings. */
  lemma ValidatorsAgree(s: string)
    ensures ValidNodeId(s) <==> ValidLabel(s)
  {
    var re := NodeIdExpression();
    assert re[1..] == [Atom(LabelChar, 0, 62)];
    assert re[1..][1..] == [];
    if ValidLabel(s) {
      assert Matches([], s[1..][|s[1..]|..]);
      assert forall i | 0 <= i < |s[1..]| :: s[1..][i] == s[i + 1];
      assert Matches(re[1..], s[1..]);
      assert 0 <= 1 <= |s| && re[0].chars(s[0]);
    }
    if Matches(re, s) {
      var k :| 0 <= k <= |s| && re[0].lo <= k <= re[0].hi
        && (forall i | 0 <= i < k :: re[0].chars(s[i])) && Matches(re[1..], s[k..]);
      assert k == 1 && LowerAlnum(s[0]);
      var t := s[1..];
      var m :| 0 <= m <= |t| && m <= 62
        && (forall i | 0 <= i < m :: re[1..][0].chars(t[i])) && Matches(re[1..][1..], t[m..]);
      assert m == |t|;
      assert forall i | 1 <= i < |s| :: s[i] == t[i - 1];
    }
  }

  // Host names.

  const MAX_HOST := MAX_LABEL - |"-abcdef"|

  /** The label before the first dot. */
  function BeforeDot(s: string): string
  {
    if s == [] || s[0] == '.' then [] else [s[0]] + BeforeDot(s[1..])
  }

  function Keep(s: string): string
  {
    if s == [] then []
    else Keep(s[..|s| - 1]) + if LabelChar(s[|s| - 1]) then [s[|s| - 1]] else []
  }

  predicate AllLabelChars(s: string)
  {
    forall i | 0 <= i < |s| :: LabelChar(s[i])
  }

  function TrimLeft(s: string): (r: string)
    ensures r == "" || r[0] != '-'
    ensures AllLabelChars(s) ==> AllLabelChars(r)
  {
    if s == "" || s[0] != '-' then s else TrimLeft(s[1..])
  }

  function TrimRight(s: string): (r: string)
    ensures |r| <= |s| && r == s[..|r|]
    ensures r == "" || r[|r| - 1] != '-'
    ensures forall i | |r| <= i < |s| :: s[i] == '-'
  {
    if s == "" || s[|s| - 1] != '-' then s else TrimRight(s[..|s| - 1])
  }

  /** Label characters, with a hyphen at neither end. */
  predicate Tidy(s: string)
  {
    AllLabelChars(s) && (s != "" ==> s[0] != '-' && s[|s| - 1] != '-')
  }

  lemma TrimRightTidies(s: string)
    requires AllLabelChars(s) && (s == "" || s[0] != '-')
    ensures Tidy(TrimRight(s))
  {
    var r := TrimRight(s);
    assert forall i | 0 <= i < |r| :: r[i] == s[i];
  }

  function Lowered(h: string, lower: char -> char): string
  {
    seq(|h|, i requires 0 <= i < |h| => lower(h[i]))
  }

  /** The length limit and the fallback. */
  function Shortened(s: string): string
  {
    var out := if |s| > MAX_HOST then TrimRight(s[..MAX_HOST]) else s;
    if out == "" then "node" else out
  }

  function SanitizeSpec(h: string, lower: char -> char): string
  {
    Shortened(TrimRight(TrimLeft(Keep(BeforeDot(Lowered(h, lower))))))
  }

  method CutAtDot(s: string) returns (host: string)
    ensures host == BeforeDot(s)
  {
    var cut := 0;
    while cut < |s| && s[cut] != '.'
      invariant 0 <= cut <= |s|
      invariant BeforeDot(s) == s[..cut] + BeforeDot(s[cut..])
    {
      assert s[cut..][1..] == s[cut + 1..];
      cut := cut + 1;
    }
    host := s[..cut];
  }

  method KeepLabelChars(s: string) returns (kept: string)
    ensures kept == Keep(s) && AllLabelChars(kept)
  {
    kept := "";
    for i := 0 to |s|
      invariant kept == Keep(s[..i]) && AllLabelChars(kept)
    {
      assert s[..i + 1][..i] == s[..i];
      if LabelChar(s[i]) {
        kept := kept + [s[i]];
      }
    }
    assert s[..|s|] == s;
  }

  method Shorten(s: string) returns (out: string)
    requires Tidy(s)
    ensures out == Shortened(s) && 1 <= |out| <= MAX_HOST && Tidy(out)
  {
    out := s;
    if |out| > MAX_HOST {
      TrimRightTidies(out[..MAX_HOST]);
      out := TrimRight(out[..MAX_HOST]);
    }
    if out == "" {
      out := "node";
    }
  }

  /** `lower` is the letter mapping of the platform; nothing is assumed about it. */
  method SanitizeHost(h: string, lower: char -> char) returns (out: string)
    ensures out == SanitizeSpec(h, lower)
    ensures 1 <= |out| <= MAX_HOST && Tidy(out)
  {
    var host := CutAtDot(Lowered(h, lower));
    var kept := KeepLabelChars(host);
    TrimRightTidies(TrimLeft(kept));
    out := Shorten(TrimRight(TrimLeft(kept)));
  }

  lemma {:induction false} BeforeDotFront(host: string, rest: string)
    requires '.' !in host && (rest == "" || rest[0] == '.')
    ensures BeforeDot(host + rest) == host
  {
    if host == "" {
      assert host + rest == rest;
    } else {
      assert host[0] in host;
      assert (host + rest)[1..] == host[1..] + rest;
      BeforeDotFront(host[1..], rest);
    }
  }

  lemma {:induction false} KeepAll(s: string)
    requires AllLabelChars(s)
    ensures Keep(s) == s
  {
    if s != "" {
      KeepAll(s[..|s| - 1]);
    }
  }

  lemma {:induction false} KeepConcat(s: string, t: string)
    ensures Keep(s + t) == Keep(s) + Keep(t)
  {
    if t == "" {
      assert s + t == s && Keep(s) + "" == Keep(s);
    } else {
      var n := |t| - 1;
      KeepConcat(s, t[..n]);
      assert (s + t)[..|s + t| - 1] == s + t[..n];
    }
  }

  /** What survives of the text before the dot: each label character in its place, and no other. */
  lemma KeepOne(s: string, c: char, t: string)
    ensures Keep(s + [c] + t) == Keep(s) + (if LabelChar(c) then [c] else []) + Keep(t)
  {
    KeepConcat(s + [c], t);
    KeepConcat(s, [c]);
    assert [c][..0] == [];
  }

  function Hyphens(k: nat): string
  {
    seq(k, _ => '-')
  }

  lemma {:induction false} TrimBoth(a: nat, core: string, b: nat)
    requires core == "" || (core[0] != '-' && core[|core| - 1] != '-')
    ensures TrimRight(TrimLeft(Hyphens(a) + core + Hyphens(b))) == core
    decreases a
  {
    var s := Hyphens(a) + core + Hyphens(b);
    if a > 0 {
      assert s[1..] == Hyphens(a - 1) + core + Hyphens(b);
      TrimBoth(a - 1, core, b);
    } else if core != "" {
      assert s == core + Hyphens(b);
      TrimTail(core, b);
    } else {
      assert s == Hyphens(b);
      TrimAll(b);
    }
  }

  lemma {:induction false} TrimTail(core: string, b: nat)
    requires core != "" && core[|core| - 1] != '-'
    ensures TrimRight(core + Hyphens(b)) == core
  {
    var s := core + Hyphens(b);
    if b > 0 {
      assert s[..|s| - 1] == core + Hyphens(b - 1);
      TrimTail(core, b - 1);
    } else {
      assert s == core;
    }
  }

  lemma {:induction false} TrimAll(b: nat)
    ensures TrimLeft(Hyphens(b)) == ""
  {
    if b > 0 {
      assert Hyphens(b)[1..] == Hyphens(b - 1);
      TrimAll(b - 1);
    }
  }

  lemma HyphensCons(k: nat)
    ensures Hyphens(k + 1) == ['-'] + Hyphens(k)
  {
  }

  lemma {:induction false} LeftPart(s: string) returns (a: nat)
    ensures s == Hyphens(a) + TrimLeft(s)
  {
    if s == "" || s[0] != '-' {
      a := 0;
    } else {
      var n := LeftPart(s[1..]);
      a := n + 1;
      HyphensCons(n);
      Regroup(['-'], Hyphens(n), TrimLeft(s));
      assert s == ['-'] + s[1..];
    }
  }

  lemma RightPart(s: string) returns (b: nat)
    ensures s == TrimRight(s) + Hyphens(b)
    ensures TrimRight(s) != "" ==> TrimRight(s)[0] == s[0]
  {
    var r := TrimRight(s);
    b := |s| - |r|;
    assert s[|r|..] == Hyphens(b) && s == s[..|r|] + s[|r|..];
  }

  lemma Regroup(x: string, y: string, z: string)
    ensures x + (y + z) == x + y + z
  {
  }

  /** Every text is a core between hyphens. */
  lemma CoreExists(s: string) returns (a: nat, core: string, b: nat)
    ensures s == Hyphens(a) + core + Hyphens(b)
    ensures core == "" || (core[0] != '-' && core[|core| - 1] != '-')
  {
    a := LeftPart(s);
    b := RightPart(TrimLeft(s));
    core := TrimRight(TrimLeft(s));
    Regroup(Hyphens(a), core, Hyphens(b));
  }

  /** The whole of sanitizing: if the label characters before the dot are a core between hyphens, the
      result is the core; of a longer core its first 56 characters, less hyphens at the cut; and "node"
      if there is no core. */
  lemma SanitizeMeans(h: string, lower: char -> char, a: nat, core: string, b: nat)
    requires Keep(BeforeDot(Lowered(h, lower))) == Hyphens(a) + core + Hyphens(b)
    requires core == "" || (core[0] != '-' && core[|core| - 1] != '-')
    ensures var out := SanitizeSpec(h, lower);
            && (core == "" ==> out == "node")
            && (1 <= |core| <= 56 ==> out == core)
            && (|core| > 56 ==> 1 <= |out| <= 56 && out + Hyphens(56 - |out|) == core[..56] && out[|out| - 1] != '-')
  {
    TrimBoth(a, core, b);
    assert MAX_HOST == 56;
    if |core| > 56 {
      var cut := core[..56];
      var out := TrimRight(cut);
      assert cut[0] == core[0];
      assert forall i | |out| <= i < 56 :: cut[i] == '-';
      assert out + Hyphens(56 - |out|) == cut;
    }
  }

  /** A host name that is already a short lower-case label survives, with or without a domain, as
      long as the letter mapping leaves such characters alone. */
  lemma CleanHostKept(host: string, domain: string, lower: char -> char)
    requires 1 <= |host| <= MAX_HOST && Tidy(host) && (domain == "" || domain[0] == '.')
    requires lower('.') == '.' && forall i | 0 <= i < |host| :: lower(host[i]) == host[i]
    ensures SanitizeSpec(host + domain, lower) == host
  {
    assert Lowered(host + domain, lower) == host + Lowered(domain, lower);
    BeforeDotFront(host, Lowered(domain, lower));
    KeepAll(host);
    assert TrimLeft(host) == host && TrimRight(host) == host;
  }

  predicate Hex(c: char)
  {
    '0' <= c <= '9' || 'a' <= c <= 'f'
  }

  /** A host part and six hexadecimal digits make an id that both validators accept. */
  method Generate(hostname: string, lower: char -> char, suffix: string) returns (id: string)
    requires |suffix| == 6 && forall i | 0 <= i < 6 :: Hex(suffix[i])
    ensures id == SanitizeSpec(hostname, lower) + "-" + suffix
    ensures ValidLabel(id) && ValidNodeId(id)
  {
    var host := SanitizeHost(hostname, lower);
    id := host + "-" + suffix;
    ValidatorsAgree(id);
  }
}

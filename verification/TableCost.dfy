/** How many table pages a mapping takes, in closed form. */
module TableCost {
  import opened Stage2
  import opened Vmm
  import opened GuestVm

  /** The IPA bits above the ones the level's table indexes. */
  ghost function Prefix(v: nat, level: nat): nat
    requires 1 <= level <= 3
  {
    OnPath(v, level).prefix
  }

  /** The distinct prefixes of n pages from v at one level. */
  ghost function Prefixes(v: nat, n: nat, level: nat): int
    requires 1 <= level <= 3
  {
    if n == 0 then 0 else Prefix(v + n - 1, level) - Prefix(v, level) + 1
  }

  /** The tables n pages from v need are those between the first page's and the last page's. */
  lemma {:induction false} InPaths(v: nat, n: nat, t: Node)
    ensures t in Paths(v, n) <==>
            n > 0 && 1 <= t.level <= 3 && Prefix(v, t.level) <= t.prefix <= Prefix(v + n - 1, t.level)
  {
    if n > 0 {
      InPaths(v, n - 1, t);
      assert t in Path(v + n - 1) <==> 1 <= t.level <= 3 && t.prefix == Prefix(v + n - 1, t.level);
      if 1 <= t.level <= 3 { PrefixSteps(v, n, t.level); }
    }
  }

  lemma PrefixSteps(v: nat, n: nat, level: nat)
    requires n > 0 && 1 <= level <= 3
    ensures Prefix(v, level) <= Prefix(v + n - 1, level) <= Prefix(v + n, level) <= Prefix(v + n - 1, level) + 1
  {}

  /** The last page adds a prefix exactly when its table is not yet on the paths. */
  lemma LastPrefix(v: nat, n: nat, level: nat)
    requires n > 0 && 1 <= level <= 3
    ensures Prefixes(v, n, level) == Prefixes(v, n - 1, level)
                                     + if OnPath(v + n - 1, level) in Paths(v, n - 1) then 0 else 1
  {
    InPaths(v, n - 1, OnPath(v + n - 1, level));
    if n > 1 { PrefixSteps(v, n - 1, level); }
  }

  lemma AddOne<X>(s: set<X>, a: X)
    ensures |s + {a}| == |s| + if a in s then 0 else 1
  {
    if a in s { assert s + {a} == s; }
  }

  lemma AddThree<X>(s: set<X>, a: X, b: X, c: X)
    requires a != b && b != c && a != c
    ensures |s + {a, b, c}| == |s| + (if a in s then 0 else 1) + (if b in s then 0 else 1) + (if c in s then 0 else 1)
  {
    AddOne(s, a);
    AddOne(s + {a}, b);
    AddOne(s + {a} + {b}, c);
    assert s + {a, b, c} == s + {a} + {b} + {c};
  }

  /** One table for each distinct prefix of each level. */
  lemma {:induction false} PathsCount(v: nat, n: nat)
    ensures |Paths(v, n)| == Prefixes(v, n, 1) + Prefixes(v, n, 2) + Prefixes(v, n, 3)
  {
    if n > 0 {
      var u := v + n - 1;
      assert Paths(v, n) == Paths(v, n - 1) + {OnPath(u, 1), OnPath(u, 2), OnPath(u, 3)};
      assert OnPath(u, 1).level == 1 && OnPath(u, 2).level == 2 && OnPath(u, 3).level == 3;
      hide Paths, Prefixes, OnPath;
      PathsCount(v, n - 1);
      LastPrefix(v, n, 1);
      LastPrefix(v, n, 2);
      LastPrefix(v, n, 3);
      AddThree(Paths(v, n - 1), OnPath(u, 1), OnPath(u, 2), OnPath(u, 3));
    }
  }

  /** Mapping n contiguous pages needs at most (n - 2) / 512 + 2 leaf tables, and so on upwards. */
  lemma PrefixBound(v: nat, n: nat)
    requires n > 0
    ensures Prefixes(v, n, 3) <= (n - 2) / 512 + 2
    ensures Prefixes(v, n, 2) <= (n - 2) / 0x4_0000 + 2
    ensures Prefixes(v, n, 1) <= (n - 2) / 0x800_0000 + 2
  {}

  function TableBound(n: nat): int {
    if n == 0 then 0 else (n - 2) / 512 + 2 + (n - 2) / 0x4_0000 + 2 + (n - 2) / 0x800_0000 + 2
  }

  lemma TablesBounded(v: nat, n: nat)
    ensures |Paths(v, n)| <= TableBound(n)
  {
    PathsCount(v, n);
    if n > 0 { PrefixBound(v, n); }
  }

  /** A free list of this many pages loads any guest of the configuration's size. */
  function EnoughFrames(c: Config): int {
    RamPages(c) + DtbPages(c) + TableBound(RamPages(c)) + TableBound(DtbPages(c))
  }

  lemma EnoughIsEnough(T: Tables, c: Config)
    ensures FramesNeeded(T, c) <= EnoughFrames(c)
    ensures EnoughFrames(c) <= RamPages(c) + DtbPages(c) + (RamPages(c) + DtbPages(c)) / 256 + 12
  {
    var p, q := Paths(c.entry / 4096, RamPages(c)), Paths(c.dtbAddr / 4096, DtbPages(c));
    TablesBounded(c.entry / 4096, RamPages(c));
    TablesBounded(c.dtbAddr / 4096, DtbPages(c));
    assert |p + q| <= |p| + |q| by { assert p + q == p + (q - p); SubsetSize(q - p, q); }
    SubsetSize(p + q - T.Keys, p + q);
  }

  /** From a fresh root the count is exact: one table for each distinct prefix. */
  lemma FreshCost(T: Tables, v: nat, n: nat)
    requires T.Keys == {ROOT}
    ensures TablesLacking(T, v, n) == Prefixes(v, n, 1) + Prefixes(v, n, 2) + Prefixes(v, n, 3)
  {
    InPaths(v, n, ROOT);
    PathsCount(v, n);
    assert Paths(v, n) - T.Keys == Paths(v, n);
  }
}

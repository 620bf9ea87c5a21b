/** Clean absolute paths: as strings, the way the driver compares them, and as sequences of
    components, which is what the comparisons mean. */
module MountPaths {
  ghost predicate IsComponent(c: string) {
    c != [] && c != "." && c != ".." && forall i :: 0 <= i < |c| ==> c[i] != '/'
  }

  ghost predicate AreComponents(cs: seq<string>) {
    forall i :: 0 <= i < |cs| ==> IsComponent(cs[i])
  }

  function Join(cs: seq<string>): string {
    if cs == [] then [] else "/" + cs[0] + Join(cs[1..])
  }

  /** The clean absolute path with these components. */
  function Render(cs: seq<string>): string {
    if cs == [] then "/" else Join(cs)
  }

  ghost predicate IsClean(path: string) {
    exists cs :: AreComponents(cs) && path == Render(cs)
  }

  // ----- The string operations the driver uses -----

  predicate IsAbs(path: string) { path != [] && path[0] == '/' }

  function TrimSlash(path: string): string {
    if path != [] && path[|path| - 1] == '/' then path[..|path| - 1] else path
  }

  /** The driver's test that `source` lies at or below the mount point `target`. */
  predicate Contains(target: string, source: string) {
    source == target || TrimSlash(target) + "/" <= source
  }

  /** `filepath.Rel` on clean absolute paths when `target` contains `source`. */
  function Rel(target: string, source: string): string
    requires Contains(target, source)
  {
    if source == target then "." else source[|TrimSlash(target)| + 1..]
  }

  /** `filepath.Join` of a clean absolute path and the result of `Rel`. */
  function JoinRel(root: string, rel: string): string {
    if rel == "." || rel == "" then root else TrimSlash(root) + "/" + rel
  }

  // ----- Their meaning on components -----

  lemma {:induction false} JoinShape(cs: seq<string>)
    requires AreComponents(cs) && cs != []
    ensures |Join(cs)| >= 2 && Join(cs)[0] == '/' && Join(cs)[|Join(cs)| - 1] != '/'
  {
    assert IsComponent(cs[0]);
    if |cs| > 1 {
      JoinShape(cs[1..]);
      var tail := Join(cs[1..]);
      assert Join(cs)[|Join(cs)| - 1] == tail[|tail| - 1];
    } else {
      assert cs[1..] == [];
      assert Join(cs) == "/" + cs[0];
    }
  }

  lemma TrimRender(cs: seq<string>)
    requires AreComponents(cs)
    ensures TrimSlash(Render(cs)) == Join(cs)
  {
    if cs != [] { JoinShape(cs); }
  }

  lemma {:induction false} JoinAppend(cs: seq<string>, ds: seq<string>)
    ensures Join(cs + ds) == Join(cs) + Join(ds)
  {
    if cs == [] {
      assert cs + ds == ds;
    } else {
      assert (cs + ds)[1..] == cs[1..] + ds;
      JoinAppend(cs[1..], ds);
    }
  }

  /** A component ends where the next slash, or the path, ends. */
  lemma SameHead(c: string, x: string, d: string, y: string)
    requires IsComponent(c) && IsComponent(d)
    requires x != [] && x[0] == '/' && (y == [] || y[0] == '/')
    requires c + x <= d + y
    ensures c == d && x <= y
  {
    var whole := d + y;
    assert forall i :: 0 <= i < |c + x| ==> (c + x)[i] == whole[i];
    assert (c + x)[|c|] == '/' == whole[|c|];
    assert forall i :: 0 <= i < |c| ==> (c + x)[i] == c[i] == whole[i];
    assert forall i :: 0 <= i < |d| ==> whole[i] == d[i];
    assert y != [] ==> whole[|d|] == '/';
    assert |c| == |d|;
    assert c == whole[..|c|] == d;
    assert x == (c + x)[|c|..] && y == whole[|c|..];
    forall i | 0 <= i < |x| ensures x[i] == y[i] {
      assert (c + x)[|c| + i] == whole[|c| + i];
    }
  }

  /** One component list is a proper prefix of another exactly when its path followed by a slash
      is a prefix of the other path. */
  lemma {:induction false} SlashPrefix(ts: seq<string>, ss: seq<string>)
    requires AreComponents(ts) && AreComponents(ss)
    ensures Join(ts) + "/" <= Join(ss) <==> ts < ss
  {
    if ss == [] {
    } else if ts == [] {
      JoinShape(ss);
    } else {
      SlashPrefix(ts[1..], ss[1..]);
      assert IsComponent(ts[0]) && IsComponent(ss[0]);
      assert ts < ss <==> ts[0] == ss[0] && ts[1..] < ss[1..] by {
        assert ts == [ts[0]] + ts[1..] && ss == [ss[0]] + ss[1..];
      }
      SlashPrefixStep(ts[0], Join(ts[1..]), ss[0], Join(ss[1..]), ts[1..], ss[1..]);
    }
  }

  lemma SlashPrefixStep(c: string, x: string, d: string, y: string, ts: seq<string>, ss: seq<string>)
    requires IsComponent(c) && IsComponent(d) && AreComponents(ts) && AreComponents(ss)
    requires x == Join(ts) && y == Join(ss)
    ensures "/" + c + x + "/" <= "/" + d + y <==> c == d && x + "/" <= y
  {
    if ts != [] { JoinShape(ts); }
    if ss != [] { JoinShape(ss); }
    var z := x + "/";
    assert "/" + c + x + "/" == "/" + (c + z) && "/" + d + y == "/" + (d + y);
    if "/" + (c + z) <= "/" + (d + y) {
      assert ("/" + (c + z))[1..] == c + z && ("/" + (d + y))[1..] == d + y;
      SameHead(c, z, d, y);
    }
  }

  lemma RenderInjective(cs: seq<string>, ds: seq<string>)
    requires AreComponents(cs) && AreComponents(ds) && Render(cs) == Render(ds)
    ensures cs == ds
  {
    if cs == [] || ds == [] {
      if cs != [] { JoinShape(cs); }
      if ds != [] { JoinShape(ds); }
    } else {
      JoinInjective(cs, ds);
    }
  }

  lemma {:induction false} JoinInjective(cs: seq<string>, ds: seq<string>)
    requires AreComponents(cs) && AreComponents(ds) && Join(cs) == Join(ds)
    ensures cs == ds
  {
    if cs != [] && ds != [] {
      assert IsComponent(cs[0]) && IsComponent(ds[0]);
      var x, y := Join(cs[1..]), Join(ds[1..]);
      if cs[1..] != [] { JoinShape(cs[1..]); }
      if ds[1..] != [] { JoinShape(ds[1..]); }
      assert Join(cs)[1..] == cs[0] + x && Join(ds)[1..] == ds[0] + y;
      if x != [] {
        SameHead(cs[0], x, ds[0], y);
      } else if y != [] {
        SameHead(ds[0], y, cs[0], x);
      } else {
        assert cs[0] == cs[0] + x && ds[0] == ds[0] + y;
      }
      assert cs[0] + x == ds[0] + y;
      JoinInjective(cs[1..], ds[1..]);
      assert cs == [cs[0]] + cs[1..] && ds == [ds[0]] + ds[1..];
    }
  }

  /** The driver's string prefix test is component-wise prefix. */
  lemma ContainsIsPrefix(ts: seq<string>, ss: seq<string>)
    requires AreComponents(ts) && AreComponents(ss)
    ensures Contains(Render(ts), Render(ss)) <==> ts <= ss
  {
    TrimRender(ts);
    if Render(ts) == Render(ss) {
      RenderInjective(ts, ss);
    } else if ss == [] {
      if ts != [] { JoinShape(ts); }
    } else {
      SlashPrefix(ts, ss);
      assert Render(ss) == Join(ss);
      assert ts <= ss <==> ts < ss || ts == ss;
    }
  }

  /** Among the prefixes of one path, the longer string has more components. */
  lemma {:induction false} LongerIsDeeper(ts: seq<string>, us: seq<string>)
    requires AreComponents(ts) && AreComponents(us) && (ts <= us || us <= ts)
    ensures |Render(ts)| >= |Render(us)| <==> |ts| >= |us|
  {
    if ts <= us {
      var extra := us[|ts|..];
      assert us == ts + extra;
      JoinAppend(ts, extra);
      if extra != [] { JoinShape(extra); }
      if ts != [] { JoinShape(ts); }
    } else {
      var extra := ts[|us|..];
      assert ts == us + extra;
      JoinAppend(us, extra);
      if extra != [] { JoinShape(extra); }
      if us != [] { JoinShape(us); }
    }
  }

  /** What `Rel` cuts off, for a source properly below the mount point. */
  lemma RelBelow(ts: seq<string>, below: seq<string>)
    requires AreComponents(ts) && AreComponents(below) && below != []
    ensures Contains(Render(ts), Render(ts + below))
    ensures Rel(Render(ts), Render(ts + below)) == Join(below)[1..]
  {
    ContainsIsPrefix(ts, ts + below);
    TrimRender(ts);
    JoinAppend(ts, below);
    JoinShape(below);
    if Render(ts) == Render(ts + below) { RenderInjective(ts, ts + below); }
    assert (Join(ts) + Join(below))[|Join(ts)| + 1..] == Join(below)[1..];
  }

  /** `Rel` then `Join` moves the part of `source` below the mount point under the mount's root. */
  lemma RelJoinGrafts(rs: seq<string>, ts: seq<string>, below: seq<string>)
    requires AreComponents(rs) && AreComponents(ts) && AreComponents(below)
    ensures Contains(Render(ts), Render(ts + below))
    ensures JoinRel(Render(rs), Rel(Render(ts), Render(ts + below))) == Render(rs + below)
  {
    if below == [] {
      assert ts + below == ts && rs + below == rs;
    } else {
      RelBelow(ts, below);
      GraftBelow(rs, below);
    }
  }

  lemma GraftBelow(rs: seq<string>, below: seq<string>)
    requires AreComponents(rs) && AreComponents(below) && below != []
    ensures |Join(below)| > 1
    ensures JoinRel(Render(rs), Join(below)[1..]) == Render(rs + below)
  {
    hide Join, TrimSlash, AreComponents;
    TrimRender(rs);
    JoinAppend(rs, below);
    JoinShape(below);
    RenderOfDot(below);
    MoveSlash(Join(rs), Join(below));
  }

  lemma MoveSlash(root: string, below: string)
    requires |below| > 1 && below[0] == '/' && below != "/."
    ensures below[1..] != "" && below[1..] != "."
    ensures root + below == root + "/" + below[1..]
  {
    assert below == "/" + below[1..];
  }

  lemma RenderOfDot(below: seq<string>)
    requires AreComponents(below) && below != []
    ensures Join(below) != "/."
  {
    assert IsComponent(below[0]);
    if |below| > 1 {
      JoinShape(below[1..]);
      assert |Join(below)| >= 4;
    } else {
      assert below[1..] == [];
      assert Join(below) == "/" + below[0];
      assert Join(below)[1..] == below[0];
    }
  }
}

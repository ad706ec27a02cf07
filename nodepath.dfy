/** The part of Node's posix `path` module that the dev server relies on,
    over normalised absolute paths given as their list of segments
    (`/a/b` is `["a", "b"]`, the root `/` is `[]`). */
module NodePath {

  type AbsPath = seq<string>

  /** A segment of a normalised path. */
  predicate IsSegment(s: string) {
    s != "" && s != "." && s != ".." && '/' !in s
  }

  predicate Normal(p: seq<string>) {
    forall k :: 0 <= k < |p| ==> IsSegment(p[k])
  }

  /** No segment holds a backslash (which `slash` would turn into a separator). */
  predicate NoBackslash(p: seq<string>) {
    forall k :: 0 <= k < |p| ==> '\\' !in p[k]
  }

  // ---------------------------------------------------------------------
  // String.prototype.split("/") and Array.prototype.join("/")
  // ---------------------------------------------------------------------

  /** Index of the first '/' in `s`, or -1. */
  function SlashIndex(s: string): (i: int)
    ensures -1 <= i < |s|
    ensures i == -1 <==> '/' !in s
    ensures i >= 0 ==> s[i] == '/' && '/' !in s[..i]
  {
    if s == [] then -1
    else if s[0] == '/' then 0
    else
      var j := SlashIndex(s[1..]);
      assert s[1..][..j + 1] == s[1..j + 2] by { }
      if j == -1 then -1 else j + 1
  }

  /** `s.split("/")`: never empty; `""` splits into `[""]`. */
  function Split(s: string): (r: seq<string>)
    ensures |r| >= 1
    ensures forall k :: 0 <= k < |r| ==> '/' !in r[k]
    decreases |s|
  {
    var i := SlashIndex(s);
    if i < 0 then [s] else [s[..i]] + Split(s[i + 1..])
  }

  /** `segs.join("/")`. */
  function JoinSegs(segs: seq<string>): string
  {
    if |segs| == 0 then ""
    else if |segs| == 1 then segs[0]
    else segs[0] + "/" + JoinSegs(segs[1..])
  }

  /** The text that stands before the last segment in `JoinSegs(xs + [b])`. */
  function JoinPrefix(xs: seq<string>): string {
    if xs == [] then "" else JoinSegs(xs) + "/"
  }

  lemma {:induction false} JoinSnoc(xs: seq<string>, b: string)
    ensures JoinSegs(xs + [b]) == JoinPrefix(xs) + b
    decreases |xs|
  {
    if |xs| == 0 {
      assert xs + [b] == [b];
    } else if |xs| == 1 {
      assert xs + [b] == [xs[0], b];
      assert (xs + [b])[1..] == [b];
    } else {
      assert (xs + [b])[1..] == xs[1..] + [b];
      JoinSnoc(xs[1..], b);
    }
  }

  lemma SlashIndexAt(a: string, b: string)
    requires '/' !in a
    ensures SlashIndex(a + "/" + b) == |a|
  {
    var s := a + "/" + b;
    assert s[|a|] == '/';
    assert s[..|a|] == a;
  }

  /** Splitting a joined list of separator-free segments gives the list back. */
  lemma {:induction false} SplitJoin(segs: seq<string>)
    requires |segs| >= 1
    requires forall k :: 0 <= k < |segs| ==> '/' !in segs[k]
    ensures Split(JoinSegs(segs)) == segs
    decreases |segs|
  {
    if |segs| > 1 {
      var a, rest := segs[0], JoinSegs(segs[1..]);
      var s := a + "/" + rest;
      SlashIndexAt(a, rest);
      assert s[..|a|] == a;
      assert s[|a| + 1..] == rest;
      SplitJoin(segs[1..]);
    }
  }

  lemma SplitDotSlash(x: string)
    ensures Split("./" + x) == ["."] + Split(x)
  {
    SlashIndexAt(".", x);
    assert ("./" + x)[..1] == ".";
    assert ("./" + x)[2..] == x;
  }

  /** The first character of a join is that of its first segment. */
  lemma JoinFirstChar(segs: seq<string>)
    requires |segs| >= 1 && segs[0] != ""
    ensures JoinSegs(segs) != "" && JoinSegs(segs)[0] == segs[0][0]
  {
  }

  /** No character other than '/' appears in a join unless some segment holds it. */
  lemma {:induction false} JoinChars(segs: seq<string>, c: char)
    requires c != '/'
    requires forall k :: 0 <= k < |segs| ==> c !in segs[k]
    ensures c !in JoinSegs(segs)
    decreases |segs|
  {
    if |segs| > 1 {
      JoinChars(segs[1..], c);
    }
  }

  // ---------------------------------------------------------------------
  // join / resolve: normalisation of `.` and `..`
  // ---------------------------------------------------------------------

  /** One segment of `path.resolve`: empty and `.` stay, `..` goes up
      (the root is its own parent), anything else goes down. */
  function Step(acc: AbsPath, seg: string): AbsPath {
    if seg == "" || seg == "." then acc
    else if seg == ".." then (if acc == [] then [] else acc[..|acc| - 1])
    else acc + [seg]
  }

  /** Applies the segments left to right. */
  function Walk(acc: AbsPath, segs: seq<string>): AbsPath
    decreases |segs|
  {
    if segs == [] then acc else Walk(Step(acc, segs[0]), segs[1..])
  }

  /** Walking separator-free segments from a normalised path stays normalised. */
  lemma {:induction false} WalkKeepsNormal(acc: AbsPath, segs: seq<string>)
    requires Normal(acc)
    requires forall k :: 0 <= k < |segs| ==> '/' !in segs[k]
    ensures Normal(Walk(acc, segs))
    decreases |segs|
  {
    if segs != [] {
      WalkKeepsNormal(Step(acc, segs[0]), segs[1..]);
    }
  }

  /** `resolve(join(base, rel))` for an absolute `base`: the result is normalised. */
  function Join(base: AbsPath, rel: string): (r: AbsPath)
    ensures Normal(base) ==> Normal(r)
  {
    var segs := Split(rel);
    if Normal(base) then WalkKeepsNormal(base, segs); Walk(base, segs)
    else Walk(base, segs)
  }

  /** `resolve(p)` of an absolute path given by its segments. */
  function Resolve(p: seq<string>): (r: AbsPath)
    ensures (forall k :: 0 <= k < |p| ==> '/' !in p[k]) ==> Normal(r)
  {
    if forall k :: 0 <= k < |p| ==> '/' !in p[k] then WalkKeepsNormal([], p); Walk([], p)
    else Walk([], p)
  }

  /** `dirname`: drops the last segment (the root is its own directory). */
  function Dirname(p: AbsPath): (r: AbsPath)
    ensures Normal(p) ==> Normal(r)
    ensures p != [] ==> r + [p[|p| - 1]] == p
  {
    if p == [] then [] else p[..|p| - 1]
  }

  /** The string form `/a/b` of an absolute path. */
  function PathString(p: AbsPath): string {
    "/" + JoinSegs(p)
  }

  lemma {:induction false} WalkNormal(acc: AbsPath, segs: seq<string>)
    requires Normal(segs)
    ensures Walk(acc, segs) == acc + segs
    decreases |segs|
  {
    if segs != [] {
      WalkNormal(acc + [segs[0]], segs[1..]);
      assert acc + [segs[0]] + segs[1..] == acc + segs;
    }
  }

  /** `resolve` leaves a normalised path alone. */
  lemma ResolveNormal(p: AbsPath)
    requires Normal(p)
    ensures Resolve(p) == p
  {
    WalkNormal([], p);
  }

  /** A list of `..` segments of the given length. */
  function Ups(n: nat): (r: seq<string>)
    ensures |r| == n
    ensures forall k :: 0 <= k < n ==> r[k] == ".."
  {
    if n == 0 then [] else [".."] + Ups(n - 1)
  }

  lemma UpsCons(n: nat, rest: seq<string>)
    requires n > 0
    ensures Ups(n) + rest == [".."] + (Ups(n - 1) + rest)
  {
  }

  lemma WalkCons(acc: AbsPath, seg: string, segs: seq<string>)
    ensures Walk(acc, [seg] + segs) == Walk(Step(acc, seg), segs)
  {
    assert ([seg] + segs)[1..] == segs;
  }

  lemma {:induction false} WalkUps(acc: AbsPath, n: nat, rest: seq<string>)
    requires n <= |acc|
    ensures Walk(acc, Ups(n) + rest) == Walk(acc[..|acc| - n], rest)
    decreases n
  {
    if n > 0 {
      var up := acc[..|acc| - 1];
      UpsCons(n, rest);
      WalkCons(acc, "..", Ups(n - 1) + rest);
      WalkUps(up, n - 1, rest);
      assert up[..|up| - (n - 1)] == acc[..|acc| - n];
    } else {
      assert Ups(n) + rest == rest && acc[..|acc|] == acc;
    }
  }

  /** Walking segments that contain no `..` only extends the start. */
  lemma {:induction false} WalkExtends(acc: AbsPath, segs: seq<string>)
    requires forall k :: 0 <= k < |segs| ==> segs[k] != ".."
    ensures |acc| <= |Walk(acc, segs)| && Walk(acc, segs)[..|acc|] == acc
    decreases |segs|
  {
    if segs != [] {
      var next := Step(acc, segs[0]);
      WalkExtends(next, segs[1..]);
      assert next[..|acc|] == acc;
    }
  }

  // ---------------------------------------------------------------------
  // relative
  // ---------------------------------------------------------------------

  /** Length of the longest common prefix. */
  function CommonPrefix(a: seq<string>, b: seq<string>): (k: nat)
    ensures k <= |a| && k <= |b|
    ensures a[..k] == b[..k]
    ensures k < |a| && k < |b| ==> a[k] != b[k]
  {
    if a == [] || b == [] || a[0] != b[0] then 0
    else
      var k := CommonPrefix(a[1..], b[1..]);
      assert a[..k + 1] == [a[0]] + a[1..][..k];
      assert b[..k + 1] == [b[0]] + b[1..][..k];
      k + 1
  }

  /** The common prefix is the first place where the two lists differ. */
  lemma {:induction false} CommonPrefixUnique(a: seq<string>, b: seq<string>, k: nat)
    requires k <= |a| && k <= |b| && a[..k] == b[..k]
    requires k == |a| || k == |b| || a[k] != b[k]
    ensures CommonPrefix(a, b) == k
    decreases k
  {
    if k > 0 {
      assert a[0] == a[..k][0] == b[..k][0] == b[0];
      assert a[1..][..k - 1] == a[1..k] == b[1..k] == b[1..][..k - 1];
      CommonPrefixUnique(a[1..], b[1..], k - 1);
    }
  }

  lemma {:induction false} CommonPrefixAtLeast(a: seq<string>, b: seq<string>, k: nat)
    requires k <= |a| && k <= |b| && a[..k] == b[..k]
    ensures CommonPrefix(a, b) >= k
    decreases k
  {
    if k > 0 {
      assert a[0] == a[..k][0] == b[..k][0] == b[0];
      assert a[1..][..k - 1] == a[1..k] == b[1..k] == b[1..][..k - 1];
      CommonPrefixAtLeast(a[1..], b[1..], k - 1);
    }
  }

  /** A path whose common prefix with `d` is all of it is an ancestor of `d`. */
  lemma CommonPrefixWhole(d: seq<string>, f: seq<string>)
    ensures CommonPrefix(d, f) == |f| ==> f <= d
  {
    if CommonPrefix(d, f) == |f| {
      assert f == f[..|f|];
    }
  }

  /** Changing only the last segment of a path that is no ancestor of `d`
      keeps its common prefix with `d`, which stops before that segment. */
  lemma CommonPrefixLastChanged(d: seq<string>, f: seq<string>, g: seq<string>)
    requires |f| == |g| >= 1 && f[..|f| - 1] == g[..|g| - 1]
    requires !(f <= d) && !(g <= d)
    ensures CommonPrefix(d, f) == CommonPrefix(d, g) < |f|
  {
    var m := |f| - 1;
    var k, k2 := CommonPrefix(d, f), CommonPrefix(d, g);
    CommonPrefixWhole(d, f);
    CommonPrefixWhole(d, g);
    if k < m {
      assert f[..k] == g[..k] by {
        assert f[..k] == f[..m][..k];
        assert g[..k] == g[..m][..k];
      }
      assert f[k] == f[..m][k] == g[..m][k] == g[k];
      CommonPrefixUnique(d, g, k);
    } else {
      assert d[..m] == f[..m];
      CommonPrefixAtLeast(d, g, m);
    }
  }

  /** The segments of `relative(from, to)`: up to the common ancestor, then down. */
  function RelativeSegs(from: AbsPath, to: AbsPath): seq<string> {
    var k := CommonPrefix(from, to);
    Ups(|from| - k) + to[k..]
  }

  /** `relative(from, to)`; `""` when both are the same path. */
  function Relative(from: AbsPath, to: AbsPath): string {
    JoinSegs(RelativeSegs(from, to))
  }

  /** Walking the relative segments from `from` arrives at `to`. */
  lemma WalkRelativeSegs(from: AbsPath, to: AbsPath)
    requires Normal(to)
    ensures Walk(from, RelativeSegs(from, to)) == to
  {
    var k := CommonPrefix(from, to);
    WalkUps(from, |from| - k, to[k..]);
    assert from[..|from| - (|from| - k)] == from[..k];
    WalkNormal(from[..k], to[k..]);
    assert from[..k] + to[k..] == to[..k] + to[k..] == to;
  }

  /** Changing only the last segment of a target outside the ancestors of
      `from` changes only the last relative segment. */
  lemma RelativeSegsLastChanged(from: AbsPath, f: AbsPath, g: AbsPath)
    requires |f| == |g| >= 1 && f[..|f| - 1] == g[..|g| - 1]
    requires !(f <= from) && !(g <= from)
    ensures var rf, rg := RelativeSegs(from, f), RelativeSegs(from, g);
      && |rf| == |rg| >= 1
      && rf[..|rf| - 1] == rg[..|rg| - 1]
      && rf[|rf| - 1] == f[|f| - 1] && rg[|rg| - 1] == g[|g| - 1]
  {
    CommonPrefixLastChanged(from, f, g);
    var k, m := CommonPrefix(from, f), |f| - 1;
    var ups := Ups(|from| - k);
    assert f[k..] == f[k..m] + [f[m]] && g[k..] == g[k..m] + [g[m]];
    assert f[k..m] == g[k..m] by {
      assert f[k..m] == f[..m][k..] && g[k..m] == g[..m][k..];
    }
    assert (ups + f[k..])[..|ups| + (m - k)] == ups + f[k..m];
    assert (ups + g[k..])[..|ups| + (m - k)] == ups + g[k..m];
  }

  /** `relative` is undone by `join`/`resolve`: joining `from` with
      `relative(from, to)` gives `to` back. */
  lemma RelativeRoundTrip(from: AbsPath, to: AbsPath)
    requires Normal(from) && Normal(to)
    ensures Join(from, Relative(from, to)) == to
  {
    var segs := RelativeSegs(from, to);
    WalkRelativeSegs(from, to);
    if segs == [] {
      assert Split("") == [""];
      assert Walk(from, [""]) == Walk(from, []);
    } else {
      RelativeSegsShape(from, to);
      SplitJoin(segs);
    }
  }

  /** The relative segments are separator-free, and backslash-free when `to` is. */
  lemma RelativeSegsShape(from: AbsPath, to: AbsPath)
    requires Normal(to)
    ensures forall k :: 0 <= k < |RelativeSegs(from, to)| ==>
      RelativeSegs(from, to)[k] != "" && '/' !in RelativeSegs(from, to)[k]
    ensures NoBackslash(to) ==> NoBackslash(RelativeSegs(from, to))
  {
  }

  /** When `to` lies below `from`, `relative` is the part below it. */
  lemma RelativeBelow(from: AbsPath, rest: seq<string>)
    requires Normal(rest)
    ensures RelativeSegs(from, from + rest) == rest
  {
    assert (from + rest)[|from|..] == rest;
  }

  /** `relative` of a path to itself is empty. */
  lemma RelativeSelf(p: AbsPath)
    ensures Relative(p, p) == ""
  {
    CommonPrefixUnique(p, p, |p|);
    assert RelativeSegs(p, p) == [];
  }

  /** `resolve(join(base, "./"))` is the base itself. */
  lemma JoinDotSlash(base: AbsPath)
    ensures Join(base, "./") == base
  {
    SplitDotSlash("");
    assert "./" + "" == "./";
    assert Split("") == [""];
    var segs := [".", ""];
    assert Split("./") == segs;
    assert Walk(base, segs[1..]) == Walk(base, []);
  }

  /** A normalised path extended by a segment stays normalised. */
  lemma NormalAppend(p: AbsPath, name: string)
    requires Normal(p) && IsSegment(name)
    ensures Normal(p + [name])
  {
    assert forall k :: 0 <= k < |p| ==> (p + [name])[k] == p[k];
  }

  /** `./name` joins like `name`. */
  lemma JoinDotSlashSegment(base: AbsPath, name: string)
    requires IsSegment(name)
    ensures Join(base, "./" + name) == base + [name]
  {
    SplitDotSlash(name);
    JoinSegment(base, name);
    assert Split(name) == [name];
    var segs := ["."] + [name];
    assert Split("./" + name) == segs;
    assert segs[1..] == [name];
    assert Walk(base, segs) == Walk(base, [name]);
  }

  /** Joining one segment appends it. */
  lemma JoinSegment(base: AbsPath, name: string)
    requires IsSegment(name)
    ensures Join(base, name) == base + [name]
  {
    assert SlashIndex(name) == -1;
    assert Split(name) == [name];
    assert Step(base, name) == base + [name];
    assert [name][1..] == [];
    assert Walk(base, [name]) == Walk(base + [name], []);
  }

  // ---------------------------------------------------------------------
  // basename / extname
  // ---------------------------------------------------------------------

  /** The text after the last '/'. */
  function Basename(s: string): (b: string)
    ensures '/' !in b
    ensures |b| <= |s|
  {
    if s == [] || s[|s| - 1] == '/' then []
    else Basename(s[..|s| - 1]) + [s[|s| - 1]]
  }

  /** `s` is the text up to and including its last '/', then its basename. */
  lemma {:induction false} BasenameSplit(s: string)
    ensures |Basename(s)| <= |s|
    ensures s == s[..|s| - |Basename(s)|] + Basename(s)
    ensures |Basename(s)| == |s| || s[|s| - |Basename(s)| - 1] == '/'
    decreases |s|
  {
    if s != [] && s[|s| - 1] != '/' {
      var s', c := s[..|s| - 1], s[|s| - 1];
      BasenameSplit(s');
      var b' := Basename(s');
      assert Basename(s) == b' + [c];
      var a := s'[..|s'| - |b'|];
      assert s == s' + [c] == a + (b' + [c]);
      assert s[..|s| - |Basename(s)|] == a;
    }
  }

  lemma {:induction false} BasenameAppend(s: string, t: string)
    requires '/' !in t
    ensures Basename(s + t) == Basename(s) + t
    decreases |t|
  {
    if t != [] {
      var u := s + t;
      assert u[..|u| - 1] == s + t[..|t| - 1];
      BasenameAppend(s, t[..|t| - 1]);
      assert t == t[..|t| - 1] + [t[|t| - 1]];
    } else {
      assert s + t == s;
    }
  }

  lemma BasenameAfterSlash(a: string, b: string)
    requires a == [] || a[|a| - 1] == '/'
    requires '/' !in b
    ensures Basename(a + b) == b
  {
    BasenameAppend(a, b);
  }

  /** Index of the last '.' in `b`, or -1. */
  function LastDot(b: string): (i: int)
    ensures -1 <= i < |b|
    ensures i >= 0 ==> b[i] == '.'
  {
    if b == [] then -1
    else if b[|b| - 1] == '.' then |b| - 1
    else LastDot(b[..|b| - 1])
  }

  /** Node's posix `extname` of a basename: from the last '.', except that a
      '.' in first position does not count and `..` has no extension. */
  function ExtOf(b: string): (e: string)
    ensures |e| <= |b|
  {
    var d := LastDot(b);
    if b == ".." || d <= 0 then "" else b[d..]
  }

  /** The extension is a suffix that starts with '.' after a non-empty stem. */
  lemma ExtOfSuffix(b: string)
    ensures b == b[..|b| - |ExtOf(b)|] + ExtOf(b)
    ensures ExtOf(b) != "" ==> ExtOf(b)[0] == '.' && |ExtOf(b)| < |b|
  {
  }

  /** `extname` of a path string (trailing separators not treated specially). */
  function Extname(s: string): (e: string)
    ensures |e| <= |s|
  {
    ExtOf(Basename(s))
  }

  /** A suffix of a suffix is a suffix. */
  lemma SuffixOfSuffix(s: string, b: string, e: string)
    requires |b| <= |s| && s == s[..|s| - |b|] + b
    requires |e| <= |b| && b == b[..|b| - |e|] + e
    ensures s == s[..|s| - |e|] + e
    ensures s[..|s| - |e|] == s[..|s| - |b|] + b[..|b| - |e|]
  {
    assert s == (s[..|s| - |b|] + b[..|b| - |e|]) + e;
  }

  lemma NotInPrefix(s: string, n: nat, c: char)
    requires n <= |s| && c !in s
    ensures c !in s[..n]
  {
    assert forall i :: 0 <= i < n ==> s[..n][i] == s[i];
  }

  /** The extension is a separator-free suffix of the path. */
  lemma ExtnameSuffix(s: string)
    ensures |Extname(s)| <= |s|
    ensures s == s[..|s| - |Extname(s)|] + Extname(s)
    ensures '/' !in Extname(s)
  {
    var b := Basename(s);
    var e := ExtOf(b);
    BasenameSplit(s);
    ExtOfSuffix(b);
    SuffixOfSuffix(s, b, e);
    assert e == b[|b| - |e|..];
    assert forall c :: c in e ==> c in b;
  }

  /** A non-empty extension leaves a non-empty stem before it. */
  lemma ExtnameShorter(s: string)
    ensures Extname(s) != "" ==> |Extname(s)| < |s|
  {
    ExtOfSuffix(Basename(s));
  }

  /** The extension of a basename ending in `.js` after a non-empty stem is `.js`. */
  lemma ExtOfJs(q: string)
    requires q != []
    ensures ExtOf(q + ".js") == ".js"
  {
    var b := q + ".js";
    var b1 := b[..|b| - 1];
    assert b1 == q + ".j";
    var b2 := b1[..|b1| - 1];
    assert b2 == q + ".";
    assert LastDot(b2) == |q|;
    assert LastDot(b1) == LastDot(b2);
    assert LastDot(b) == LastDot(b1);
    assert b[|q|..] == ".js";
  }

  /** `extname` of a path made of a directory part and a separator-free name. */
  lemma ExtnameAfterSlash(a: string, b: string)
    requires a == [] || a[|a| - 1] == '/'
    requires '/' !in b
    ensures Extname(a + b) == ExtOf(b)
  {
    BasenameAfterSlash(a, b);
  }

  /** `extname` of a separator-free name. */
  lemma ExtnameOfName(b: string)
    requires '/' !in b
    ensures Extname(b) == ExtOf(b)
  {
    BasenameAfterSlash([], b);
    assert [] + b == b;
  }

  /** `extname` on the string form of an absolute path is that of its last segment. */
  lemma ExtnameOfPath(p: AbsPath)
    requires p != [] && '/' !in p[|p| - 1]
    ensures Extname(PathString(p)) == ExtOf(p[|p| - 1])
  {
    var xs, b := p[..|p| - 1], p[|p| - 1];
    assert p == xs + [b];
    JoinSnoc(xs, b);
    var a := "/" + JoinPrefix(xs);
    assert PathString(p) == a + b;
    ExtnameAfterSlash(a, b);
  }
}

/** The helpers of `src/utils.ts` that the module graph depends on: the
    string functions `slash`, `urlRelative` and `toJsExt`, the predicate
    combinator `either`, the memo of `createMemo`, the subscriber list of
    `createNewEvent` and the readiness queue of `newPromiseQueue`. */
module Utils {
  import opened Wrappers
  import opened NodePath

  // ---------------------------------------------------------------------
  // slash
  // ---------------------------------------------------------------------

  /** `str.replace(/\\/g, "/")`. */
  function Slash(s: string): (r: string)
    ensures |r| == |s|
  {
    if s == [] then []
    else (if s[0] == '\\' then "/" else [s[0]]) + Slash(s[1..])
  }

  /** Every backslash becomes '/', every other character stays in place. */
  lemma {:induction false} SlashChars(s: string)
    ensures '\\' !in Slash(s)
    ensures forall i :: 0 <= i < |s| && s[i] != '\\' ==> Slash(s)[i] == s[i]
    ensures forall i :: 0 <= i < |s| && s[i] == '\\' ==> Slash(s)[i] == '/'
    decreases |s|
  {
    if s != [] {
      SlashChars(s[1..]);
      var h := if s[0] == '\\' then "/" else [s[0]];
      assert Slash(s) == h + Slash(s[1..]);
      assert forall i :: 1 <= i < |s| ==> Slash(s)[i] == Slash(s[1..])[i - 1];
    }
  }

  lemma SlashIdempotent(s: string)
    ensures Slash(Slash(s)) == Slash(s)
  {
    SlashChars(s);
    SlashNoBackslash(Slash(s));
  }

  /** A string that holds no backslash is left alone. */
  lemma SlashNoBackslash(s: string)
    requires '\\' !in s
    ensures Slash(s) == s
  {
    SlashChars(s);
    assert forall i :: 0 <= i < |s| ==> Slash(s)[i] == s[i];
  }

  // ---------------------------------------------------------------------
  // urlRelative
  // ---------------------------------------------------------------------

  /** What `urlRelative` puts in front of a relative path: nothing when it
      starts with '.', otherwise `./`. */
  function DotPrefix(r: string): string {
    if r != [] && r[0] == '.' then "" else "./"
  }

  /** `urlRelative(from, to)`: the slashed relative path, with `./` put in
      front unless it already starts with '.'. */
  function UrlRelative(from: AbsPath, to: AbsPath): (u: string)
    ensures |u| > 0 && u[0] == '.'
  {
    var r := Slash(Relative(from, to));
    DotPrefix(r) + r
  }

  /** The relative URL points back at the target: resolving it against
      `from` gives `to`. */
  lemma {:induction false} UrlRelativeResolves(from: AbsPath, to: AbsPath)
    requires Normal(from) && Normal(to) && NoBackslash(to)
    ensures Join(from, UrlRelative(from, to)) == to
  {
    var rel := Relative(from, to);
    RelativeUnslashed(from, to);
    RelativeRoundTrip(from, to);
    if DotPrefix(rel) != "" {
      SplitDotSlash(rel);
      assert UrlRelative(from, to) == "./" + rel;
      WalkCons(from, ".", Split(rel));
    } else {
      assert UrlRelative(from, to) == rel;
    }
  }

  /** From a directory to itself, `urlRelative` is `./`. */
  lemma UrlRelativeSelf(d: AbsPath)
    ensures UrlRelative(d, d) == "./"
  {
    RelativeSelf(d);
  }

  /** A child whose name starts with '.' gets no `./` in front, so the
      result is a bare name such as `.cache`, not a URL that starts with
      `./`, `../` or `/`. */
  lemma UrlRelativeDotChild(d: AbsPath, name: string)
    requires IsSegment(name) && name[0] == '.' && '\\' !in name
    ensures UrlRelative(d, d + [name]) == name
  {
    RelativeBelow(d, [name]);
    SlashNoBackslash(name);
  }

  /** The relative path to a backslash-free target needs no slashing. */
  lemma RelativeUnslashed(from: AbsPath, to: AbsPath)
    requires Normal(to) && NoBackslash(to)
    ensures Slash(Relative(from, to)) == Relative(from, to)
  {
    RelativeSegsShape(from, to);
    JoinChars(RelativeSegs(from, to), '\\');
    SlashNoBackslash(Relative(from, to));
  }

  /** What `urlRelative(from, to)` puts before the last relative segment. */
  function UrlHead(from: AbsPath, to: AbsPath): string
    requires RelativeSegs(from, to) != []
  {
    var segs := RelativeSegs(from, to);
    DotPrefix(Relative(from, to)) + JoinPrefix(segs[..|segs| - 1])
  }

  /** `urlRelative` is its head followed by the last relative segment,
      and the head is empty or ends in a separator. */
  lemma UrlRelativeHead(from: AbsPath, to: AbsPath)
    requires Normal(to) && NoBackslash(to) && RelativeSegs(from, to) != []
    ensures UrlRelative(from, to) == UrlHead(from, to) + RelativeSegs(from, to)[|RelativeSegs(from, to)| - 1]
    ensures var h := UrlHead(from, to); h == [] || h[|h| - 1] == '/'
  {
    var segs := RelativeSegs(from, to);
    var n := |segs|;
    var init, last := segs[..n - 1], segs[n - 1];
    RelativeUnslashed(from, to);
    assert segs == init + [last];
    JoinSnoc(init, last);
    var pre := DotPrefix(Relative(from, to));
    assert pre + (JoinPrefix(init) + last) == (pre + JoinPrefix(init)) + last;
  }

  /** Two targets that differ only in the last segment, both outside the
      ancestors of `from`, share the relative head when the last segments
      start with the same character. */
  lemma UrlHeadLastChanged(from: AbsPath, f: AbsPath, g: AbsPath)
    requires Normal(f) && Normal(g)
    requires |f| == |g| >= 1 && f[..|f| - 1] == g[..|g| - 1]
    requires f[|f| - 1][0] == g[|g| - 1][0]
    requires !(f <= from) && !(g <= from)
    ensures RelativeSegs(from, f) != [] && RelativeSegs(from, g) != []
    ensures UrlHead(from, f) == UrlHead(from, g)
    ensures var r := RelativeSegs(from, f); r[|r| - 1] == f[|f| - 1]
    ensures var r := RelativeSegs(from, g); r[|r| - 1] == g[|g| - 1]
  {
    RelativeSegsLastChanged(from, f, g);
    var rf, rg := RelativeSegs(from, f), RelativeSegs(from, g);
    RelativeSegsShape(from, f);
    RelativeSegsShape(from, g);
    SameInitFirstChar(rf, rg);
  }

  /** Segment lists with the same initial part and last segments that start
      alike join to strings that start alike. */
  lemma SameInitFirstChar(rf: seq<string>, rg: seq<string>)
    requires |rf| == |rg| >= 1 && rf[..|rf| - 1] == rg[..|rg| - 1]
    requires rf[0] != "" && rg[0] != "" && rf[|rf| - 1] != "" && rg[|rg| - 1] != ""
    requires rf[|rf| - 1][0] == rg[|rg| - 1][0]
    ensures JoinSegs(rf)[0] == JoinSegs(rg)[0]
  {
    JoinFirstChar(rf);
    JoinFirstChar(rg);
    if |rf| > 1 {
      assert rf[0] == rf[..|rf| - 1][0] == rg[..|rg| - 1][0] == rg[0];
    }
  }

  // ---------------------------------------------------------------------
  // toJsExt
  // ---------------------------------------------------------------------

  predicate EndsWithJs(s: string) {
    |s| >= 3 && s[|s| - 3..] == ".js"
  }

  /** `toJsExt(path)`: replaces the extension by `.js` unless it is `.js`. */
  function ToJsExt(s: string): (r: string)
    ensures EndsWithJs(r)
    ensures Extname(s) == ".js" ==> r == s
  {
    var e := Extname(s);
    if e != ".js" then s[..|s| - |e|] + ".js"
    else
      ExtnameSuffix(s);
      s
  }

  /** A non-empty path keeps its first character through `toJsExt`. */
  lemma ToJsExtFirstChar(s: string)
    requires s != []
    ensures ToJsExt(s) != [] && ToJsExt(s)[0] == s[0]
  {
    ExtnameShorter(s);
    ToJsExtStem(s);
  }

  /** Everything before the old extension is kept, and the result ends in `.js`. */
  lemma ToJsExtStem(s: string)
    ensures |s| - |Extname(s)| <= |ToJsExt(s)|
    ensures ToJsExt(s)[..|s| - |Extname(s)|] == s[..|s| - |Extname(s)|]
  {
    ExtnameSuffix(s);
  }

  /** With an extension other than `.js`, the stem before it gets `.js`. */
  lemma ToJsExtParts(s: string, p: string, e: string)
    requires Extname(s) == e && e != ".js" && s == p + e
    ensures ToJsExt(s) == p + ".js"
  {
    assert s[..|s| - |e|] == p;
  }

  /** A name that ends in `.js` after a non-empty stem has the extension `.js`. */
  lemma ExtnameJs(a: string, q: string)
    requires a == [] || a[|a| - 1] == '/'
    requires q != [] && '/' !in q
    ensures Extname(a + (q + ".js")) == ".js"
  {
    ExtnameAfterSlash(a, q + ".js");
    ExtOfJs(q);
  }

  /** A path with a basename splits into directory part, stem and extension. */
  lemma StemSplit(s: string) returns (a: string, q: string)
    requires Basename(s) != ""
    ensures a == [] || a[|a| - 1] == '/'
    ensures q != [] && '/' !in q
    ensures s == (a + q) + Extname(s)
  {
    var b := Basename(s);
    var e := Extname(s);
    BasenameSplit(s);
    ExtOfSuffix(b);
    a := s[..|s| - |b|];
    q := b[..|b| - |e|];
    SuffixOfSuffix(s, b, e);
    NotInPrefix(b, |b| - |e|, '/');
  }

  lemma ToJsExtTwice(s: string, a: string, q: string, e: string)
    requires Extname(s) == e && e != ".js" && s == (a + q) + e
    requires Extname(a + (q + ".js")) == ".js"
    ensures ToJsExt(ToJsExt(s)) == ToJsExt(s)
  {
    ToJsExtParts(s, a + q, e);
    AppendAssoc(a, q, ".js");
  }

  /** `toJsExt` is idempotent on every path whose basename is not empty. */
  lemma {:induction false} ToJsExtIdempotent(s: string)
    requires Basename(s) != ""
    ensures ToJsExt(ToJsExt(s)) == ToJsExt(s)
  {
    var e := Extname(s);
    if e != ".js" {
      var a, q := StemSplit(s);
      ExtnameJs(a, q);
      ToJsExtTwice(s, a, q, e);
    }
  }

  /** Without a basename (a directory path such as `./`) `toJsExt` is not
      idempotent: `./` becomes `./.js`, whose leading dot is no extension,
      so a second application gives `./.js.js`. */
  lemma ToJsExtOnDirectory(a: string)
    requires a != [] && a[|a| - 1] == '/'
    ensures ToJsExt(a) == a + ".js"
    ensures ToJsExt(ToJsExt(a)) == (a + ".js") + ".js"
  {
    ToJsExtDirectoryOnce(a);
    ToJsExtDotJsName(a, a + ".js");
  }

  /** A leading dot is no extension: the bare name `.js` becomes `.js.js`. */
  lemma ToJsExtDotJs()
    ensures ToJsExt(".js") == ".js.js"
  {
    ExtnameOfName(".js");
    ExtOfDotJs();
    assert ".js" == ".js" + "";
    ToJsExtParts(".js", ".js", "");
  }

  /** `.js.js` has the extension `.js` and is left alone. */
  lemma ToJsExtDotJsJs()
    ensures ToJsExt(".js.js") == ".js.js"
  {
    ExtnameOfName(".js.js");
    ExtOfDotJsJs();
  }

  lemma ExtOfDotJsJs()
    ensures ExtOf(".js.js") == ".js"
  {
    assert ".js.js"[..5] == ".js.j" && ".js.j"[..4] == ".js.";
    assert LastDot(".js.") == 3;
    assert LastDot(".js.js") == 3;
  }

  lemma ToJsExtDirectoryOnce(a: string)
    requires a != [] && a[|a| - 1] == '/'
    ensures ToJsExt(a) == a + ".js"
  {
    ExtnameOfDirectory(a);
    ToJsExtParts(a, a, "");
  }

  lemma ToJsExtDotJsName(a: string, d: string)
    requires a != [] && a[|a| - 1] == '/' && d == a + ".js"
    ensures ToJsExt(d) == d + ".js"
  {
    ExtnameAfterSlash(a, ".js");
    ExtOfDotJs();
    assert d == d + "";
    ToJsExtParts(d, d, "");
  }

  lemma ExtnameOfDirectory(a: string)
    requires a != [] && a[|a| - 1] == '/'
    ensures Extname(a) == "" && a == a + ""
  {
    assert Basename(a) == "";
  }

  lemma ExtOfDotJs()
    ensures ExtOf(".js") == ""
  {
    assert ".js"[..2] == ".j" && ".j"[..1] == ".";
    assert LastDot(".js") == 0;
  }

  /** `toJsExt` acts on the basename only. */
  lemma {:induction false} ToJsExtAppend(a: string, b: string)
    requires a == [] || a[|a| - 1] == '/'
    requires '/' !in b
    ensures ToJsExt(a + b) == a + ToJsExt(b)
  {
    ExtnameAfterSlash(a, b);
    ExtnameOfName(b);
    var e := ExtOf(b);
    if e != ".js" {
      ExtOfSuffix(b);
      ToJsExtAppendStem(a, b, b[..|b| - |e|], e);
    }
  }

  lemma ToJsExtAppendStem(a: string, b: string, q: string, e: string)
    requires Extname(a + b) == e && Extname(b) == e && e != ".js" && b == q + e
    ensures ToJsExt(a + b) == a + ToJsExt(b)
  {
    AppendAssoc(a, q, e);
    ToJsExtParts(a + b, a + q, e);
    ToJsExtParts(b, q, e);
    AppendAssoc(a, q, ".js");
  }

  /** A separator-free name becomes its non-empty stem followed by `.js`. */
  lemma NameStem(b: string) returns (q: string)
    requires IsSegment(b)
    ensures ToJsExt(b) == q + ".js"
    ensures q != [] && q[0] == b[0]
    ensures forall c :: c in q ==> c in b
  {
    ExtnameOfName(b);
    ExtOfSuffix(b);
    var e := ExtOf(b);
    q := b[..|b| - |e|];
    assert b == q + e;
    if e != ".js" {
      ToJsExtParts(b, q, e);
    }
  }

  /** A path segment stays a path segment through `toJsExt`, keeps its first
      character, and afterwards has the extension `.js`. */
  lemma {:induction false} ToJsExtName(b: string)
    requires IsSegment(b) && '\\' !in b
    ensures IsSegment(ToJsExt(b)) && '\\' !in ToJsExt(b)
    ensures ToJsExt(b)[0] == b[0]
    ensures ExtOf(ToJsExt(b)) == ".js"
  {
    var q := NameStem(b);
    var r := q + ".js";
    assert forall c :: c in r ==> c in q || c in ".js";
    ExtOfJs(q);
    assert |r| >= 4;
  }

  // ---------------------------------------------------------------------
  // either
  // ---------------------------------------------------------------------

  /** `either(a, b)`: the pointwise disjunction of two predicates. */
  function Either<T(!new)>(a: T -> bool, b: T -> bool): (r: T -> bool)
    ensures forall v :: r(v) <==> a(v) || b(v)
  {
    v => a(v) || b(v)
  }

  // ---------------------------------------------------------------------
  // createMemo
  // ---------------------------------------------------------------------

  /** The closure of `createMemo`: a set of keys recorded as `true`. */
  class Memo {
    var known: set<string>

    constructor ()
      ensures known == {}
    {
      known := {};
    }

    /** Answers whether `key` was recorded; on a miss records `memoKey`,
        or `key` itself when `memoKey` is absent. */
    method Check(key: string, memoKey: Option<string>) returns (hit: bool)
      modifies this
      ensures hit == (key in old(known))
      ensures known == if hit then old(known) else old(known) + {memoKey.GetOr(key)}
    {
      if key in known {
        return true;
      }
      known := known + {memoKey.GetOr(key)};
      return false;
    }
  }

  // ---------------------------------------------------------------------
  // createNewEvent
  // ---------------------------------------------------------------------

  /** What one `fireEvent(v)` delivers: `v` to each subscriber, in order. */
  function Deliveries<T>(subs: seq<nat>, v: T): (r: seq<(nat, T)>)
    ensures |r| == |subs|
    ensures forall i :: 0 <= i < |subs| ==> r[i] == (subs[i], v)
  {
    if subs == [] then [] else Deliveries(subs[..|subs| - 1], v) + [(subs[|subs| - 1], v)]
  }

  /** The pair returned by `createNewEvent`: subscribers are named by
      numbers, and every call of a subscriber is recorded in `delivered`. */
  class Event<T> {
    var subscribers: seq<nat>
    var delivered: seq<(nat, T)>

    constructor ()
      ensures subscribers == [] && delivered == []
    {
      subscribers := [];
      delivered := [];
    }

    method OnEvent(subscriber: nat)
      modifies this
      ensures subscribers == old(subscribers) + [subscriber]
      ensures delivered == old(delivered)
    {
      subscribers := subscribers + [subscriber];
    }

    method Fire(v: T)
      modifies this
      ensures subscribers == old(subscribers)
      ensures delivered == old(delivered) + Deliveries(subscribers, v)
    {
      var subs := subscribers;
      for i := 0 to |subs|
        invariant subscribers == subs
        invariant delivered == old(delivered) + Deliveries(subs[..i], v)
      {
        assert subs[..i + 1][..i] == subs[..i];
        delivered := delivered + [(subs[i], v)];
      }
      assert subs[..|subs|] == subs;
    }
  }

  // ---------------------------------------------------------------------
  // newPromiseQueue
  // ---------------------------------------------------------------------

  /** The state behind `newPromiseQueue`. A promise added to the queue
      schedules one `checkIsReady`; a check is split at its `await` into
      `BeginCheck`, which takes the snapshot of the queue length, and
      `ResumeCheck`, which compares it with the length on resuming. */
  class PromiseQueue {
    var isReady: bool
    var called: bool
    var queueLen: nat
    var callbacks: seq<nat>
    /** Each run of `callbacks.forEach`, with the callbacks it ran. */
    var runs: seq<seq<nat>>
    /** Checks scheduled by `promise.then(checkIsReady)` and not yet begun. */
    var scheduled: nat
    /** Snapshots of the checks suspended at their `await`. */
    ghost var waiting: multiset<nat>

    ghost predicate Valid()
      reads this
    {
      && |runs| <= 1
      && (called <==> |runs| == 1)
      && (isReady ==> called)
      && (forall s :: s in waiting ==> s <= queueLen)
    }

    constructor ()
      ensures Valid()
      ensures !isReady && !called && queueLen == 0 && callbacks == [] && runs == []
      ensures scheduled == 0 && waiting == multiset{}
    {
      isReady, called, queueLen, callbacks, runs := false, false, 0, [], [];
      scheduled, waiting := 0, multiset{};
    }

    /** `onReady(fn)`. */
    method OnReady(fn: nat)
      requires Valid()
      modifies this
      ensures Valid()
      ensures callbacks == old(callbacks) + [fn]
      ensures isReady == old(isReady) && called == old(called) && queueLen == old(queueLen)
      ensures runs == old(runs) && scheduled == old(scheduled) && waiting == old(waiting)
    {
      callbacks := callbacks + [fn];
    }

    /** `addToQueue(promise)`: the queue grows and one check is scheduled. */
    method AddToQueue()
      requires Valid()
      modifies this
      ensures Valid()
      ensures queueLen == old(queueLen) + 1 && scheduled == old(scheduled) + 1
      ensures isReady == old(isReady) && called == old(called) && callbacks == old(callbacks)
      ensures runs == old(runs) && waiting == old(waiting)
    {
      queueLen := queueLen + 1;
      scheduled := scheduled + 1;
    }

    /** The part of `checkIsReady` before the `await`: once ready it returns
        at once; otherwise it takes the snapshot of the queue length. */
    method BeginCheck() returns (snapshot: Option<nat>)
      requires Valid() && scheduled > 0
      modifies this
      ensures Valid()
      ensures scheduled == old(scheduled) - 1
      ensures old(isReady) ==> snapshot == None && waiting == old(waiting)
      ensures !old(isReady) ==> snapshot == Some(queueLen) && waiting == old(waiting) + multiset{queueLen}
      ensures isReady == old(isReady) && called == old(called) && queueLen == old(queueLen)
      ensures callbacks == old(callbacks) && runs == old(runs)
    {
      scheduled := scheduled - 1;
      if isReady {
        return None;
      }
      snapshot := Some(queueLen);
      waiting := waiting + multiset{queueLen};
    }

    /** The part of `checkIsReady` after the `await`: `isReady` is
        overwritten with "nothing was added meanwhile", and only `called`
        keeps the callbacks from running twice. */
    method ResumeCheck(snapshot: nat) returns (fired: bool)
      requires Valid() && snapshot in waiting
      modifies this
      ensures Valid()
      ensures waiting == old(waiting) - multiset{snapshot}
      ensures isReady == (snapshot == queueLen)
      ensures fired == (isReady && !old(called))
      ensures called == (old(called) || isReady)
      ensures runs == old(runs) + (if fired then [callbacks] else [])
      ensures queueLen == old(queueLen) && callbacks == old(callbacks) && scheduled == old(scheduled)
    {
      waiting := waiting - multiset{snapshot};
      isReady := snapshot == queueLen;
      fired := false;
      if isReady && !called {
        called := true;
        runs := runs + [callbacks];
        fired := true;
      }
    }
  }

  /** A run in which readiness is first reached and then withdrawn. Two
      checks take the same snapshot and resume in the order they began; a
      promise added between the two resumptions makes the second check
      overwrite `isReady` with `false`, while the callbacks still run only
      once. */
  method ReadinessCanBeWithdrawn()
  {
    var q := new PromiseQueue();
    q.OnReady(7);
    q.AddToQueue();
    q.AddToQueue();
    var first := q.BeginCheck();
    var second := q.BeginCheck();
    assert first == Some(2) && second == Some(2);
    var fired := q.ResumeCheck(2);
    assert q.callbacks == [7];
    assert fired && q.isReady;
    assert q.runs == [[7]];
    q.AddToQueue();
    fired := q.ResumeCheck(2);
    assert !fired && !q.isReady && q.runs == [[7]];
  }
}

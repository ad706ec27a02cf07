/** The traversal driver of `src/dev-server.ts`: the `done` map that lets
    every source file be handed to a handler once, dispatch by extension,
    re-enabling a deleted file, and the `isReady` gate on reloads, which
    opens only when the promise queue reports readiness. */
module DevServer {
  import opened Wrappers
  import opened NodePath
  import opened Utils

  /** The two handlers `handleNewFile` can start. */
  datatype Handler = JsHandler | HtmlHandler

  /** The `switch (extname(path))`: `.js` and `.mjs` go to `handleJs`,
      `.html` to `handleHtml`, anything else to nobody. */
  function DispatchKind(path: AbsPath): Option<Handler> {
    var ext := Extname(PathString(path));
    if ext == ".mjs" || ext == ".js" then Some(JsHandler)
    else if ext == ".html" then Some(HtmlHandler)
    else None
  }

  /** `done[path]` is truthy. */
  predicate IsDone(done: map<AbsPath, bool>, path: AbsPath) {
    path in done && done[path]
  }

  /** The `done` map with the handlers started so far, in order. */
  datatype Traversal = Traversal(done: map<AbsPath, bool>, dispatched: seq<(AbsPath, Handler)>)

  /** `handleNewFile(path)`. */
  function NewFileStep(t: Traversal, path: AbsPath): Traversal {
    if IsDone(t.done, path) then t
    else
      var done := t.done[path := true];
      match DispatchKind(path)
      case Some(h) => Traversal(done, t.dispatched + [(path, h)])
      case None => Traversal(done, t.dispatched)
  }

  /** `handleUnlink(path)`. */
  function UnlinkStep(t: Traversal, path: AbsPath): Traversal {
    Traversal(t.done[path := false], t.dispatched)
  }

  datatype FileEvent = NewFile(path: AbsPath) | Unlink(path: AbsPath)

  function Apply(t: Traversal, e: FileEvent): Traversal {
    match e
    case NewFile(p) => NewFileStep(t, p)
    case Unlink(p) => UnlinkStep(t, p)
  }

  /** The events in order. */
  function Replay(t: Traversal, events: seq<FileEvent>): Traversal
    decreases |events|
  {
    if events == [] then t else Apply(Replay(t, events[..|events| - 1]), events[|events| - 1])
  }

  /** How many handlers were started for `path`. */
  function Count(dispatched: seq<(AbsPath, Handler)>, path: AbsPath): nat
    decreases |dispatched|
  {
    if dispatched == [] then 0
    else Count(dispatched[..|dispatched| - 1], path) + (if dispatched[|dispatched| - 1].0 == path then 1 else 0)
  }

  lemma CountSnoc(dispatched: seq<(AbsPath, Handler)>, d: (AbsPath, Handler), path: AbsPath)
    ensures Count(dispatched + [d], path) == Count(dispatched, path) + (if d.0 == path then 1 else 0)
  {
    assert (dispatched + [d])[..|dispatched|] == dispatched;
  }

  /** One `handleNewFile`: a path already done is ignored; otherwise it is
      marked done, whatever its extension, and at most one handler starts,
      for this path and no other. */
  lemma NewFileStepEffect(t: Traversal, path: AbsPath, other: AbsPath)
    ensures IsDone(NewFileStep(t, path).done, path)
    ensures IsDone(t.done, path) ==> NewFileStep(t, path) == t
    ensures !IsDone(t.done, path) ==>
      NewFileStep(t, path).dispatched ==
        t.dispatched + (if DispatchKind(path).Some? then [(path, DispatchKind(path).value)] else [])
    ensures other != path ==>
      IsDone(NewFileStep(t, path).done, other) == IsDone(t.done, other) &&
      Count(NewFileStep(t, path).dispatched, other) == Count(t.dispatched, other)
  {
    if !IsDone(t.done, path) && DispatchKind(path).Some? {
      CountSnoc(t.dispatched, (path, DispatchKind(path).value), other);
    }
  }

  /** Between unlinks of a path, it is handed to a handler at most once,
      and not at all when it was already done. */
  lemma {:induction false} AtMostOnceBetweenUnlinks(t: Traversal, events: seq<FileEvent>, path: AbsPath)
    requires forall k :: 0 <= k < |events| ==> events[k] != Unlink(path)
    ensures var r := Replay(t, events);
      Count(r.dispatched, path) <= Count(t.dispatched, path) + 1 &&
      (Count(r.dispatched, path) == Count(t.dispatched, path) + 1 ==> IsDone(r.done, path)) &&
      (IsDone(t.done, path) ==> IsDone(r.done, path) && Count(r.dispatched, path) == Count(t.dispatched, path))
    decreases |events|
  {
    if events != [] {
      var init, e := events[..|events| - 1], events[|events| - 1];
      assert forall k :: 0 <= k < |init| ==> init[k] == events[k];
      AtMostOnceBetweenUnlinks(t, init, path);
      var r0 := Replay(t, init);
      match e
      case NewFile(p) =>
        NewFileStepEffect(r0, p, path);
        if p == path && !IsDone(r0.done, path) && DispatchKind(path).Some? {
          CountSnoc(r0.dispatched, (path, DispatchKind(path).value), path);
        }
      case Unlink(p) =>
        assert p != path;
    }
  }

  /** After `handleUnlink(path)` the next `handleNewFile(path)` dispatches
      it again. */
  lemma UnlinkReenables(t: Traversal, path: AbsPath)
    requires DispatchKind(path).Some?
    ensures Replay(t, [Unlink(path), NewFile(path)]).dispatched == t.dispatched + [(path, DispatchKind(path).value)]
  {
    var events := [Unlink(path), NewFile(path)];
    assert events[..1] == [Unlink(path)] && [Unlink(path)][..0] == [];
    var t1 := UnlinkStep(t, path);
    assert Replay(t, events[..1]) == t1;
    assert !IsDone(t1.done, path);
  }

  /** The seed `rootPath/index.html` goes to `handleHtml`. */
  lemma IndexIsHtml(root: AbsPath)
    ensures DispatchKind(root + ["index.html"]) == Some(HtmlHandler)
  {
    var p := root + ["index.html"];
    ExtnameOfPath(p);
    var b := "index.html";
    assert b[..9] == "index.htm" && "index.htm"[..8] == "index.ht";
    assert "index.ht"[..7] == "index.h" && "index.h"[..6] == "index.";
    assert LastDot("index.") == 5;
    assert LastDot(b) == 5;
    assert b[5..] == ".html";
  }

  /** A path whose last segment has no '.' (a directory such as `src`, or
      `LICENSE`) goes to no handler, though it is still marked done. */
  lemma ExtensionlessNotDispatched(path: AbsPath)
    requires path != [] && '/' !in path[|path| - 1] && '.' !in path[|path| - 1]
    ensures DispatchKind(path) == None
  {
    ExtnameOfPath(path);
  }

  // ---------------------------------------------------------------------
  // The server
  // ---------------------------------------------------------------------

  /** The state of `start()`: the `done` map, the handlers started, the
      reloads sent to the browser, `isReady`, and the number of server
      starts done by the ready callback. The ready callback is callback 0
      of the promise queue. */
  class Server {
    var done: map<AbsPath, bool>
    var dispatched: seq<(AbsPath, Handler)>
    var reloads: seq<AbsPath>
    var isReady: bool
    var inits: nat
    const queue: PromiseQueue

    ghost predicate Valid()
      reads this, queue
    {
      && queue.Valid()
      && queue.callbacks == [0]
      && queue.queueLen == |dispatched|
      && (isReady <==> queue.called)
      && inits == (if isReady then 1 else 0)
    }

    function State(): Traversal
      reads this
    {
      Traversal(done, dispatched)
    }

    /** `start()`: the ready callback is registered and the traversal is
        seeded with `rootPath/index.html`. */
    constructor (root: AbsPath)
      ensures Valid() && fresh(queue)
      ensures State() == NewFileStep(Traversal(map[], []), root + ["index.html"])
      ensures dispatched == [(root + ["index.html"], HtmlHandler)]
      ensures !isReady && reloads == [] && queue.scheduled == 1
    {
      done := map[];
      dispatched := [];
      reloads := [];
      isReady := false;
      inits := 0;
      queue := new PromiseQueue();
      new;
      queue.OnReady(0);
      IndexIsHtml(root);
      HandleNewFile(root + ["index.html"]);
    }

    /** `handleNewFile(path)`: each started handler's promise is added to
        the queue. */
    method HandleNewFile(path: AbsPath)
      requires Valid()
      modifies this, queue
      ensures Valid()
      ensures State() == NewFileStep(old(State()), path)
      ensures queue.scheduled == old(queue.scheduled) + |dispatched| - |old(dispatched)|
      ensures isReady == old(isReady) && reloads == old(reloads) && inits == old(inits)
      ensures queue.waiting == old(queue.waiting) && queue.runs == old(queue.runs)
    {
      if path in done && done[path] {
        return;
      }
      done := done[path := true];
      var kind := DispatchKind(path);
      if kind.Some? {
        dispatched := dispatched + [(path, kind.value)];
        queue.AddToQueue();
      }
    }

    /** `handleUnlink(path)`. */
    method HandleUnlink(path: AbsPath)
      requires Valid()
      modifies this
      ensures Valid()
      ensures State() == UnlinkStep(old(State()), path)
      ensures isReady == old(isReady) && reloads == old(reloads) && inits == old(inits)
    {
      done := done[path := false];
    }

    /** `handleChange(outputPath)`: the browser reloads only once ready. */
    method HandleChange(outputPath: AbsPath)
      requires Valid()
      modifies this
      ensures Valid()
      ensures reloads == old(reloads) + (if isReady then [outputPath] else [])
      ensures State() == old(State()) && isReady == old(isReady) && inits == old(inits)
    {
      if isReady {
        reloads := reloads + [outputPath];
      }
    }

    /** A scheduled `checkIsReady` reaching its `await`. */
    method BeginCheck() returns (snapshot: Option<nat>)
      requires Valid() && queue.scheduled > 0
      modifies queue
      ensures Valid()
      ensures old(queue.isReady) ==> snapshot == None
      ensures !old(queue.isReady) ==> snapshot == Some(|dispatched|) && queue.waiting == old(queue.waiting) + multiset{|dispatched|}
      ensures State() == old(State()) && isReady == old(isReady)
      ensures queue.scheduled == old(queue.scheduled) - 1
    {
      snapshot := queue.BeginCheck();
    }

    /** A suspended `checkIsReady` resuming; when the queue fires its
        callbacks, the ready callback sets `isReady` and starts the server. */
    method ResumeCheck(snapshot: nat)
      requires Valid() && snapshot in queue.waiting
      modifies this, queue
      ensures Valid()
      ensures isReady == (old(isReady) || snapshot == |dispatched|)
      ensures inits <= 1
      ensures State() == old(State()) && reloads == old(reloads)
      ensures queue.waiting == old(queue.waiting) - multiset{snapshot}
      ensures queue.scheduled == old(queue.scheduled)
    {
      var fired := queue.ResumeCheck(snapshot);
      if fired {
        isReady := true;
        inits := inits + 1;
      }
    }
  }
}

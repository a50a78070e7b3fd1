/** The session part of class Driver (scripts/agentic_gate_driver.py): requests, events and `run`,
    against any behaviour of the daemon, its pipes and the clock. */
module SessionDriver {
  import opened Wrappers
  import opened Session

  /** One line of the daemon's output as the event queue hands it over, or what ends the wait. */
  datatype Line = Junk | Parsed(ev: Event) | EndOfOutput | Deadline

  datatype Next = Ev(ev: Event) | Timeout | Eof

  datatype Trouble =
    | SpawnFailed | StdinClosed(before: Message)
    | LoadDeadline | ExitBeforeLoaded | LoadError
    | GenerateDeadline | ExitDuringGenerate | GenerateError
    | UnloadDeadline | ExitBeforeUnloaded
    | OwnershipLost | DidNotExit | StatusUnknown | BadStatus(status: int)

  datatype UnloadResult = NotAttempted | SendFailed | DeadlineExceeded | EofBefore | Acknowledged

  datatype Progress = Progress(attempt: int, readySeen: bool, commitSent: bool, doneSeen: bool, errors: nat)

  /** What _wait_exit finds, with the status a reap would give. */
  datatype Leader = Lost | StillRunning | ExitedWith(reaped: Option<int>)

  /** errors stays empty exactly in these phases. */
  predicate Unblemished(p: Phase) {
    match p
    case Fresh | Loading => true
    case Ready(_, ok) => ok
    case Busy(_, _, ok) => ok
    case Unloading(ok) => ok
    case Unloaded(ok) => ok
    case _ => false
  }

  // ---- what a clean session looks like from outside: the daemon's lines and the pipe ----

  /** A wait that starts at line a passes over junk and ends before line e: at an event, at the end of the
      output, at the deadline, or with no line left. */
  ghost predicate ReadsTo(lines: seq<Line>, a: nat, e: nat, r: Next) {
    if a < e && a < |lines| && e <= |lines| && !lines[e - 1].Junk? then
      && (forall j :: a <= j < e - 1 ==> lines[j].Junk?)
      && match lines[e - 1]
         case Parsed(ev) => r == Ev(ev)
         case EndOfOutput => r == Eof
         case _ => r == Timeout
    else
      r == Timeout && a <= e == |lines| && forall j :: a <= j < e ==> lines[j].Junk?
  }

  /** A line that a wait passes over: no JSON object, or an event that is none of these types. */
  predicate Skips(l: Line, types: set<string>) {
    l.Junk? || (l.Parsed? && forall t :: t in types ==> l.ev.typ != Str(t))
  }

  /** The first event of this type from line a on is at d, with no end of output, deadline or event of
      another stopping type before it. */
  ghost predicate FirstOf(lines: seq<Line>, typ: string, stops: set<string>, a: nat, d: nat) {
    && a <= d < |lines| && lines[d].Parsed? && lines[d].ev.typ == Str(typ)
    && forall j :: a <= j < d ==> Skips(lines[j], stops)
  }

  /** A line that a request waits over. */
  predicate Waits(l: Line, req: Request) {
    l.Junk? || (l.Parsed? && !Answers(l.ev, req))
  }

  /** The done of the request is line d, and from line a on nothing before it ends the wait. */
  ghost predicate AnsweredAt(lines: seq<Line>, req: Request, a: nat, d: nat) {
    && a <= d < |lines| && lines[d] == Parsed(Event(Str("done"), Str(req.id), Int(req.attempt)))
    && forall j :: a <= j < d ==> Waits(lines[j], req)
  }

  /** The commit_readys of the request among lines a to d. */
  ghost function ReadyLines(lines: seq<Line>, req: Request, a: nat, d: nat): (n: nat)
    requires a <= d <= |lines|
    decreases d
  {
    if d == a then 0 else
      ReadyLines(lines, req, a, d - 1) + if lines[d - 1].Parsed? && ReadyFor(lines[d - 1].ev, req) then 1 else 0
  }

  /** Writes b to b + n - 1 reach the daemon. */
  ghost predicate PipeOpen(pipe: seq<bool>, b: nat, n: nat) {
    b + n <= |pipe| && forall k :: b <= k < b + n ==> pipe[k]
  }

  /** The request is answered by line d, and its generate and all its commits go out from write b on. */
  ghost predicate RequestAt(lines: seq<Line>, pipe: seq<bool>, req: Request, a: nat, b: nat, d: nat) {
    AnsweredAt(lines, req, a, d) && PipeOpen(pipe, b, 1 + ReadyLines(lines, req, a, d))
  }

  /** Requests i and on are each answered in turn, and then the unload is sent and acknowledged. */
  ghost predicate CleanFrom(lines: seq<Line>, pipe: seq<bool>, requests: seq<Request>, i: nat, a: nat, b: nat)
    requires i <= |requests|
    decreases |requests| - i
  {
    if i == |requests| then PipeOpen(pipe, b, 1) && exists u: nat :: FirstOf(lines, "unloaded", {"unloaded"}, a, u)
    else
      exists d: nat ::
        && RequestAt(lines, pipe, requests[i], a, b, d)
        && CleanFrom(lines, pipe, requests, i + 1, d + 1, b + 1 + ReadyLines(lines, requests[i], a, d))
  }

  /** The load is sent and acknowledged, then the requests and the unload. */
  ghost predicate CleanSession(lines: seq<Line>, pipe: seq<bool>, requests: seq<Request>, a: nat, b: nat) {
    PipeOpen(pipe, b, 1)
    && exists l: nat ::
         && FirstOf(lines, "loaded", {"loaded", "error"}, a, l)
         && CleanFrom(lines, pipe, requests, 0, l + 1, b + 1)
  }

  lemma {:induction false} OneFirstOf(lines: seq<Line>, typ: string, stops: set<string>, a: nat, d: nat, e: nat)
    requires typ in stops && FirstOf(lines, typ, stops, a, d) && FirstOf(lines, typ, stops, a, e)
    ensures d == e
  {
  }

  lemma {:induction false} OneAnswer(lines: seq<Line>, req: Request, a: nat, d: nat, e: nat)
    requires AnsweredAt(lines, req, a, d) && AnsweredAt(lines, req, a, e)
    ensures d == e
  {
  }

  /** The next request is answered by d: what is left is clean exactly if the whole was. */
  lemma {:induction false} CleanStep(lines: seq<Line>, pipe: seq<bool>, requests: seq<Request>, i: nat, a: nat, b: nat,
                                     d: nat)
    requires i < |requests| && RequestAt(lines, pipe, requests[i], a, b, d)
    ensures CleanFrom(lines, pipe, requests, i, a, b)
       <==> CleanFrom(lines, pipe, requests, i + 1, d + 1, b + 1 + ReadyLines(lines, requests[i], a, d))
  {
    hide PipeOpen, ReadyLines;
    if CleanFrom(lines, pipe, requests, i, a, b) {
      var e: nat :| RequestAt(lines, pipe, requests[i], a, b, e)
        && CleanFrom(lines, pipe, requests, i + 1, e + 1, b + 1 + ReadyLines(lines, requests[i], a, e));
      OneAnswer(lines, requests[i], a, d, e);
    }
  }

  lemma {:induction false} LoadedOnce(lines: seq<Line>, pipe: seq<bool>, requests: seq<Request>, a: nat, b: nat, l: nat)
    requires FirstOf(lines, "loaded", {"loaded", "error"}, a, l) && PipeOpen(pipe, b, 1)
    ensures CleanSession(lines, pipe, requests, a, b) <==> CleanFrom(lines, pipe, requests, 0, l + 1, b + 1)
  {
    hide CleanFrom, FirstOf, PipeOpen;
    if CleanSession(lines, pipe, requests, a, b) {
      var k: nat :| FirstOf(lines, "loaded", {"loaded", "error"}, a, k)
        && CleanFrom(lines, pipe, requests, 0, k + 1, b + 1);
      OneFirstOf(lines, "loaded", {"loaded", "error"}, a, l, k);
    }
  }

  lemma CleanEnd(lines: seq<Line>, pipe: seq<bool>, requests: seq<Request>, a: nat, b: nat)
    ensures CleanFrom(lines, pipe, requests, |requests|, a, b)
       <==> PipeOpen(pipe, b, 1) && exists u: nat :: FirstOf(lines, "unloaded", {"unloaded"}, a, u)
  {
    hide FirstOf, PipeOpen;
  }

  lemma {:induction false} NotCleanStep(lines: seq<Line>, pipe: seq<bool>, requests: seq<Request>, i: nat, a: nat,
                                        b: nat)
    requires i < |requests| && forall d: nat :: !RequestAt(lines, pipe, requests[i], a, b, d)
    ensures !CleanFrom(lines, pipe, requests, i, a, b)
  {
    hide RequestAt;
  }

  lemma {:induction false} ReadyMore(lines: seq<Line>, req: Request, a: nat, d: nat, e: nat)
    requires a <= d <= e <= |lines|
    ensures ReadyLines(lines, req, a, d) <= ReadyLines(lines, req, a, e)
    decreases e
  {
    if d < e {
      ReadyMore(lines, req, a, d, e - 1);
    }
  }

  /** Junk lines hold no commit_ready. */
  lemma {:induction false} NoReady(lines: seq<Line>, req: Request, a: nat, d: nat, e: nat)
    requires a <= d <= e <= |lines| && forall j :: d <= j < e ==> lines[j].Junk?
    ensures ReadyLines(lines, req, a, e) == ReadyLines(lines, req, a, d)
    decreases e
  {
    if d < e {
      NoReady(lines, req, a, d, e - 1);
    }
  }

  /** Every line from a to e is waited over, and the generate and the commits so far are the writes b to w. */
  ghost predicate Waited(lines: seq<Line>, pipe: seq<bool>, req: Request, a: nat, b: nat, e: nat, w: nat) {
    && a <= e <= |lines| && (forall j :: a <= j < e ==> Waits(lines[j], req))
    && w == b + 1 + ReadyLines(lines, req, a, e) && PipeOpen(pipe, b, w - b)
  }

  lemma {:induction false} FirstWait(lines: seq<Line>, pipe: seq<bool>, req: Request, a: nat, b: nat)
    requires a <= |lines| && b < |pipe| && pipe[b]
    ensures Waited(lines, pipe, req, a, b, a, b + 1)
  {
  }

  /** A line at e that ends the wait, or the end of the lines, and only waiting before: no answer. */
  lemma {:induction false} NoAnswer(lines: seq<Line>, pipe: seq<bool>, req: Request, a: nat, b: nat, e: nat)
    requires a <= e <= |lines| && (forall j :: a <= j < e ==> Waits(lines[j], req))
    requires e < |lines| ==> !Waits(lines[e], req) && lines[e] != Parsed(DoneOf(req))
    ensures forall d: nat :: !RequestAt(lines, pipe, req, a, b, d)
  {
    forall d: nat
      ensures !AnsweredAt(lines, req, a, d)
    {
    }
    hide AnsweredAt, PipeOpen;
  }

  /** A wait that ends without an event ends the request without an answer. */
  lemma {:induction false} NoEvent(lines: seq<Line>, pipe: seq<bool>, req: Request, a: nat, b: nat, at: nat, w: nat,
                                   e: nat, r: Next)
    requires Waited(lines, pipe, req, a, b, at, w) && ReadsTo(lines, at, e, r) && !r.Ev?
    ensures forall d: nat :: !RequestAt(lines, pipe, req, a, b, d)
  {
    hide RequestAt, PipeOpen, ReadyLines, Answers;
    NoAnswer(lines, pipe, req, a, b, if at < e && !lines[e - 1].Junk? then e - 1 else e);
  }

  /** An error for the request, or a done of another attempt, ends it without an answer. */
  lemma {:induction false} NotDone(lines: seq<Line>, pipe: seq<bool>, req: Request, a: nat, b: nat, at: nat, w: nat,
                                   e: nat, ev: Event)
    requires Waited(lines, pipe, req, a, b, at, w) && ReadsTo(lines, at, e, Ev(ev))
    requires Answers(ev, req) && ev != DoneOf(req)
    ensures forall d: nat :: !RequestAt(lines, pipe, req, a, b, d)
  {
    hide RequestAt, PipeOpen, ReadyLines, Answers;
    NoAnswer(lines, pipe, req, a, b, e - 1);
  }

  /** The done of the request answers it. */
  lemma {:induction false} IsAnswered(lines: seq<Line>, pipe: seq<bool>, req: Request, a: nat, b: nat, at: nat, w: nat,
                                      e: nat)
    requires Waited(lines, pipe, req, a, b, at, w) && ReadsTo(lines, at, e, Ev(DoneOf(req)))
    ensures 0 < e <= |lines| && RequestAt(lines, pipe, req, a, b, e - 1)
    ensures a < e && w == b + 1 + ReadyLines(lines, req, a, e - 1)
  {
    hide PipeOpen, ReadyLines, Answers;
    NoReady(lines, req, a, at, e - 1);
  }

  /** An event that does not end the request is waited over, one more commit if it is a commit_ready. */
  lemma {:induction false} WaitOn(lines: seq<Line>, pipe: seq<bool>, req: Request, a: nat, b: nat, at: nat, w: nat,
                                  e: nat, ev: Event)
    requires Waited(lines, pipe, req, a, b, at, w) && ReadsTo(lines, at, e, Ev(ev)) && !Answers(ev, req)
    ensures !ReadyFor(ev, req) ==> Waited(lines, pipe, req, a, b, e, w)
    ensures ReadyFor(ev, req) && w < |pipe| && pipe[w] ==> Waited(lines, pipe, req, a, b, e, w + 1)
    ensures ReadyFor(ev, req) && !(w < |pipe| && pipe[w]) ==> forall d: nat :: !RequestAt(lines, pipe, req, a, b, d)
  {
    hide RequestAt, Answers, ReadyFor;
    NoReady(lines, req, a, at, e - 1);
    if ReadyFor(ev, req) && !(w < |pipe| && pipe[w]) {
      NoCommit(lines, pipe, req, a, b, e);
    }
  }

  /** A commit that cannot go out at write w, after the commit_readys up to line e: no clean answer. */
  lemma {:induction false} NoCommit(lines: seq<Line>, pipe: seq<bool>, req: Request, a: nat, b: nat, e: nat)
    requires a < e <= |lines| && (forall j :: a <= j < e ==> Waits(lines[j], req))
    requires !PipeOpen(pipe, b, 1 + ReadyLines(lines, req, a, e))
    ensures forall d: nat :: !RequestAt(lines, pipe, req, a, b, d)
  {
    forall d: nat
      ensures !RequestAt(lines, pipe, req, a, b, d)
    {
      if AnsweredAt(lines, req, a, d) && e <= d {
        ReadyMore(lines, req, a, e, d);
      }
    }
  }

  lemma NoGenerate(lines: seq<Line>, pipe: seq<bool>, req: Request, a: nat, b: nat)
    requires !PipeOpen(pipe, b, 1)
    ensures forall d: nat :: !RequestAt(lines, pipe, req, a, b, d)
  {
    hide AnsweredAt;
  }

  lemma ReadyWaits(ev: Event, req: Request)
    requires ReadyFor(ev, req)
    ensures !Answers(ev, req)
  {
  }

  /** A wait that ends without an event sees none of the type. */
  lemma {:induction false} NoneSeen(lines: seq<Line>, typ: string, stops: set<string>, a: nat, at: nat, e: nat, r: Next)
    requires typ in stops && a <= at <= |lines| && forall j :: a <= j < at ==> Skips(lines[j], stops)
    requires ReadsTo(lines, at, e, r)
    requires r.Ev? ==> r.ev.typ != Str(typ) && exists t :: t in stops && r.ev.typ == Str(t)
    ensures forall d: nat :: !FirstOf(lines, typ, stops, a, d)
  {
    hide FirstOf;
    NoFirst(lines, typ, stops, a, if at < e && !lines[e - 1].Junk? then e - 1 else e);
  }

  lemma {:induction false} SkipOn(lines: seq<Line>, stops: set<string>, a: nat, at: nat, e: nat, ev: Event)
    requires a <= at <= |lines| && forall j :: a <= j < at ==> Skips(lines[j], stops)
    requires ReadsTo(lines, at, e, Ev(ev))
    ensures e <= |lines| && forall j :: a <= j < e - 1 ==> Skips(lines[j], stops)
    ensures (forall t :: t in stops ==> ev.typ != Str(t)) ==> forall j :: a <= j < e ==> Skips(lines[j], stops)
  {
  }

  /** After the request was sent its own done came, with its id and attempt. */
  ghost predicate DoneAfterSent(trace: seq<Obs>, req: Request) {
    exists g: nat, d: nat ::
      && g < d < |trace|
      && trace[g] == Sent(Generate(req))
      && trace[d] == Got(Event(Str("done"), Str(req.id), Int(req.attempt)))
  }

  lemma {:induction false} AllDone(trace: seq<Obs>, requests: seq<Request>)
    requires exists m, u :: Complete(trace, requests, m, u)
    ensures forall i :: 0 <= i < |requests| ==> DoneAfterSent(trace, requests[i])
  {
    var m, u :| Complete(trace, requests, m, u);
    forall i | 0 <= i < |requests|
      ensures DoneAfterSent(trace, requests[i])
    {
      assert ServedAt(trace, requests, m, i, u);
      assert ServedBetween(trace, requests[i], m.sent[i], m.done[i]);
    }
  }

  lemma NothingSeen(plan: seq<Request>)
    ensures Watch([], plan) == Fresh
  {
  }

  /** Only lines that the wait passes over, then one that ends it otherwise, or the end of the lines. */
  lemma {:induction false} NoFirst(lines: seq<Line>, typ: string, stops: set<string>, a: nat, e: nat)
    requires typ in stops && a <= e <= |lines| && (forall j :: a <= j < e ==> Skips(lines[j], stops))
    requires e < |lines| ==> !Skips(lines[e], stops) && !(lines[e].Parsed? && lines[e].ev.typ == Str(typ))
    ensures forall d: nat :: !FirstOf(lines, typ, stops, a, d)
  {
    forall d: nat
      ensures !FirstOf(lines, typ, stops, a, d)
    {
    }
  }

  /** A record of a request with this id of which nothing was seen yet. */
  ghost predicate Untouched(requests: seq<Request>, id: string, p: Progress) {
    exists j :: 0 <= j < |requests| && requests[j].id == id
      && p == Progress(requests[j].attempt, false, false, false, 0)
  }

  /** The progress records run() starts from, one for each id. */
  method FreshTable(requests: seq<Request>) returns (table: map<string, Progress>)
    ensures forall j :: 0 <= j < |requests| ==> requests[j].id in table
    ensures forall id :: id in table ==> Untouched(requests, id, table[id])
  {
    table := map[];
    for i := 0 to |requests|
      invariant forall j :: 0 <= j < i ==> requests[j].id in table
      invariant forall id :: id in table ==> Untouched(requests, id, table[id])
    {
      assert Untouched(requests, requests[i].id, Progress(requests[i].attempt, false, false, false, 0));
      table := table[requests[i].id := Progress(requests[i].attempt, false, false, false, 0)];
    }
  }

  class Driver {
    // the environment, any values
    const spawns: bool
    const lines: seq<Line>
    const pipe: seq<bool>
    const leader: Leader

    var lineAt: nat
    var pipeAt: nat

    var errors: seq<Trouble>
    var eof: bool
    var terminated: bool
    var killedByDriver: bool
    var exitStatus: Option<int>
    var loaded: bool
    var unloadResult: UnloadResult
    var reqs: map<string, Progress>

    ghost var trace: seq<Obs>
    ghost var plan: seq<Request>

    constructor (spawns: bool, lines: seq<Line>, pipe: seq<bool>, leader: Leader)
      ensures this.spawns == spawns && this.lines == lines && this.pipe == pipe && this.leader == leader
      ensures errors == [] && trace == [] && !eof && !terminated && !killedByDriver && !loaded && exitStatus == None
      ensures unloadResult == NotAttempted
    {
      this.spawns, this.lines, this.pipe, this.leader := spawns, lines, pipe, leader;
      lineAt, pipeAt, errors, eof, terminated, killedByDriver := 0, 0, [], false, false, false;
      exitStatus, loaded, unloadResult, reqs, trace, plan := None, false, NotAttempted, map[], [], [];
    }

    ghost function Now(): Phase
      reads this
    {
      Watch(trace, plan)
    }

    /** The trace so far is one of the protocol, and errors says whether it can still end cleanly. */
    ghost predicate Valid()
      reads this
    {
      && !Now().Broken?
      && (errors == [] <==> Unblemished(Now()))
      && (eof ==> Now().Gone?)
      && (forall i :: 0 <= i < |plan| ==> plan[i].id in reqs)
    }

    /** The requests this many into the plan have their done recorded. */
    ghost predicate Recorded(n: nat)
      reads this
    {
      forall i :: 0 <= i < n && i < |plan| && plan[i].id in reqs ==> reqs[plan[i].id].doneSeen
    }

    method Send(msg: Message) returns (ok: bool)
      modifies this`pipeAt, this`trace
      ensures pipeAt == old(pipeAt) + 1 && (ok <==> old(pipeAt) < |pipe| && pipe[old(pipeAt)])
      ensures trace == old(trace) + [if ok then Sent(msg) else Refused(msg)]
      ensures Watch(trace, plan) == Advance(Watch(old(trace), plan), if ok then Sent(msg) else Refused(msg), plan)
    {
      ok := pipeAt < |pipe| && pipe[pipeAt];
      pipeAt := pipeAt + 1;
      WatchMore(trace, if ok then Sent(msg) else Refused(msg), plan);
      trace := trace + [if ok then Sent(msg) else Refused(msg)];
    }

    ghost function Seen(r: Next): Obs {
      match r
      case Ev(ev) => Got(ev)
      case Timeout => Expired
      case Eof => Ended
    }

    /** Lines that are no JSON object are skipped; a wait always ends, at the latest by its deadline. */
    method NextEvent() returns (r: Next)
      requires lineAt <= |lines|
      modifies this`lineAt, this`eof, this`trace
      ensures lineAt <= |lines|
      ensures trace == old(trace) + [Seen(r)]
      ensures Watch(trace, plan) == Advance(Watch(old(trace), plan), Seen(r), plan)
      ensures eof == (old(eof) || r.Eof?)
      ensures r.Ev? ==> old(lineAt) < lineAt && lines[lineAt - 1] == Parsed(r.ev)
      ensures !old(eof) ==> ReadsTo(lines, old(lineAt), lineAt, r)
    {
      r := Timeout;
      if eof {
        r := Eof;
      } else {
        while lineAt < |lines|
          invariant old(lineAt) <= lineAt <= |lines| && !eof && r.Timeout? && trace == old(trace)
          invariant forall j :: old(lineAt) <= j < lineAt ==> lines[j].Junk?
        {
          var line := lines[lineAt];
          lineAt := lineAt + 1;
          if line.Parsed? {
            r := Ev(line.ev);
            break;
          } else if line.EndOfOutput? {
            eof := true;
            r := Eof;
            break;
          } else if line.Deadline? {
            break;
          }
        }
      }
      WatchMore(trace, Seen(r), plan);
      trace := trace + [Seen(r)];
    }

    method Record(t: Trouble)
      modifies this`errors
      ensures errors == old(errors) + [t]
    {
      errors := errors + [t];
    }

    method AwaitLoaded() returns (ok: bool)
      requires Valid() && Now().Loading? && lineAt <= |lines|
      modifies this`lineAt, this`eof, this`trace, this`errors, this`loaded
      ensures Valid() && lineAt <= |lines|
      ensures ok ==> Now() == Ready(0, true) && loaded && !eof
      ensures !ok ==> Now().Gone? && loaded == old(loaded)
      ensures ok ==> 0 < lineAt && FirstOf(lines, "loaded", {"loaded", "error"}, old(lineAt), lineAt - 1)
      ensures !ok ==> forall l: nat :: !FirstOf(lines, "loaded", {"loaded", "error"}, old(lineAt), l)
    {
      ghost var a, stops := lineAt, {"loaded", "error"};
      while true
        invariant Valid() && Now().Loading? && a <= lineAt <= |lines| && loaded == old(loaded)
        invariant forall j :: a <= j < lineAt ==> Skips(lines[j], stops)
        decreases |lines| - lineAt
      {
        hide Watch, ReadsTo, Skips;
        ghost var at := lineAt;
        var r := NextEvent();
        match r
        case Timeout =>
          Record(LoadDeadline);
          NoneSeen(lines, "loaded", stops, a, at, lineAt, r);
          return false;
        case Eof =>
          Record(ExitBeforeLoaded);
          NoneSeen(lines, "loaded", stops, a, at, lineAt, r);
          return false;
        case Ev(ev) =>
          SkipOn(lines, stops, a, at, lineAt, ev);
          if ev.typ == Str("loaded") {
            loaded := true;
            return true;
          }
          if ev.typ == Str("error") {
            Record(LoadError);
            NoneSeen(lines, "loaded", stops, a, at, lineAt, r);
            return false;
          }
      }
    }

    method AnswerReady(req: Request, ghost k: nat) returns (ok: bool)
      requires !Now().Broken? && Now().Busy? && Now().cur == k && Now().owed && k < |plan| && plan[k] == req
      requires req.id in reqs
      modifies this`pipeAt, this`trace, this`errors, this`reqs
      ensures pipeAt == old(pipeAt) + 1 && (ok <==> old(pipeAt) < |pipe| && pipe[old(pipeAt)])
      ensures Now() == if ok then old(Now()).(owed := false) else Stopped
      ensures errors == if ok then old(errors) else old(errors) + [StdinClosed(Commit(req))]
      ensures reqs == old(reqs)[req.id := old(reqs)[req.id].(readySeen := true,
        commitSent := old(reqs)[req.id].commitSent || ok)]
    {
      hide Watch, IsReady, IsDone, IsError;
      reqs := reqs[req.id := reqs[req.id].(readySeen := true)];
      ok := Send(Commit(req));
      if !ok {
        Record(StdinClosed(Commit(req)));
        return;
      }
      reqs := reqs[req.id := reqs[req.id].(commitSent := true)];
    }

    /** Sends request k of the plan, answers its commit_ready and waits for its terminal event. */
    method RunRequest(req: Request, ghost k: nat) returns (usable: bool)
      requires Valid() && Now().Ready? && Now().next == k < |plan| && plan[k] == req
      requires lineAt <= |lines|
      requires Now().ok ==> Recorded(k)
      modifies this`lineAt, this`pipeAt, this`eof, this`trace, this`errors, this`reqs
      ensures Valid() && lineAt <= |lines|
      ensures usable ==> Now().Ready? && Now().next == k + 1 && (Now().ok ==> Recorded(k + 1))
      ensures !usable ==> Now().Stopped? || Now().Gone?
      ensures Now().Gone? <==> eof
      ensures usable && Now().ok ==>
        && old(Now()).ok && 0 < lineAt
        && RequestAt(lines, pipe, req, old(lineAt), old(pipeAt), lineAt - 1)
        && pipeAt == old(pipeAt) + 1 + ReadyLines(lines, req, old(lineAt), lineAt - 1)
      ensures !(usable && Now().ok) && old(Now()).ok ==>
        forall d: nat :: !RequestAt(lines, pipe, req, old(lineAt), old(pipeAt), d)
    {
      hide Watch, IsReady, IsDone, IsError, RequestAt, Waited, ReadsTo, Answers, ReadyFor, DoneOf;
      ghost var good, a, b := Now().ok, lineAt, pipeAt;
      var sent := Send(Generate(req));
      if !sent {
        Record(StdinClosed(Generate(req)));
        NoGenerate(lines, pipe, req, a, b);
        return false;
      }
      hide Advance;
      FirstWait(lines, pipe, req, a, b);
      while true
        invariant Valid() && Now() == Busy(k, false, good) && a <= lineAt <= |lines|
        invariant good ==> Recorded(k)
        invariant Waited(lines, pipe, req, a, b, lineAt, pipeAt)
        decreases |lines| - lineAt
      {
        ghost var at, w := lineAt, pipeAt;
        var r := NextEvent();
        BusyNext(k, good, Seen(r), plan);
        match r
        case Timeout =>
          Record(GenerateDeadline);
          NoEvent(lines, pipe, req, a, b, at, w, lineAt, r);
          return false;
        case Eof =>
          Record(ExitDuringGenerate);
          NoEvent(lines, pipe, req, a, b, at, w, lineAt, r);
          return false;
        case Ev(ev) =>
          EventTests(ev, req);
          if IsReady(ev, req) {
            ReadyWaits(ev, req);
            WaitOn(lines, pipe, req, a, b, at, w, lineAt, ev);
            var ok := AnswerReady(req, k);
            if !ok {
              return false;
            }
          } else if IsDone(ev, req) {
            reqs := reqs[req.id := reqs[req.id].(doneSeen := true)];
            IsAnswered(lines, pipe, req, a, b, at, w, lineAt);
            return true;
          } else if IsError(ev, req) {
            reqs := reqs[req.id := reqs[req.id].(errors := reqs[req.id].errors + 1)];
            Record(GenerateError);
            NotDone(lines, pipe, req, a, b, at, w, lineAt, ev);
            return true;
          } else {
            WaitOn(lines, pipe, req, a, b, at, w, lineAt, ev);
          }
      }
    }

    method UnloadModel()
      requires Valid() && lineAt <= |lines|
      requires Now().Stopped? || (Now().Ready? && Now().next == |plan|)
      modifies this`lineAt, this`pipeAt, this`eof, this`trace, this`errors, this`unloadResult
      ensures Valid() && lineAt <= |lines|
      ensures Now().Unloaded? || Now().Gone?
      ensures Now().Unloaded? <==> unloadResult.Acknowledged?
      ensures Now() == Unloaded(true) <==>
        && old(Now()).Ready? && old(Now()).ok && PipeOpen(pipe, old(pipeAt), 1)
        && exists u: nat :: FirstOf(lines, "unloaded", {"unloaded"}, old(lineAt), u)
    {
      hide Watch, ReadsTo, Skips;
      ghost var good, a, stops := Now().Ready? && Now().ok, lineAt, {"unloaded"};
      var ok := Send(Unload);
      if !ok {
        unloadResult := SendFailed;
        Record(StdinClosed(Unload));
        return;
      }
      while true
        invariant Valid() && Now() == Unloading(good) && a <= lineAt <= |lines|
        invariant forall j :: a <= j < lineAt ==> Skips(lines[j], stops)
        decreases |lines| - lineAt
      {
        ghost var at := lineAt;
        var r := NextEvent();
        match r
        case Timeout =>
          unloadResult := DeadlineExceeded;
          Record(UnloadDeadline);
          NoneSeen(lines, "unloaded", stops, a, at, lineAt, r);
          return;
        case Eof =>
          unloadResult := EofBefore;
          Record(ExitBeforeUnloaded);
          NoneSeen(lines, "unloaded", stops, a, at, lineAt, r);
          return;
        case Ev(ev) =>
          SkipOn(lines, stops, a, at, lineAt, ev);
          if ev.typ == Str("unloaded") {
            unloadResult := Acknowledged;
            assert FirstOf(lines, "unloaded", stops, a, lineAt - 1);
            return;
          }
      }
    }

    /** The driver ends the daemon; what that does to the process is in Ownership. */
    method Kill()
      modifies this`killedByDriver, this`terminated
      ensures terminated && killedByDriver == (old(killedByDriver) || !old(terminated))
    {
      if !terminated {
        killedByDriver := true;
        terminated := true;
      }
    }

    /** The daemon is finished, and killed if it is not gone then. */
    method Finish()
      requires !terminated && !killedByDriver
      modifies this`errors, this`terminated, this`killedByDriver, this`exitStatus
      ensures terminated && (errors == [] <==> old(errors) == [] && leader == ExitedWith(Some(0)))
      ensures errors == [] ==> !killedByDriver && exitStatus == Some(0)
    {
      FinishDaemon();
      if !terminated {
        Kill();
      }
    }

    /** Errors stay empty exactly if the daemon exited by itself with status 0. */
    method FinishDaemon()
      requires !terminated && !killedByDriver
      modifies this`errors, this`terminated, this`killedByDriver, this`exitStatus
      ensures errors == [] <==> old(errors) == [] && leader == ExitedWith(Some(0))
      ensures errors == [] ==> terminated && !killedByDriver && exitStatus == Some(0)
    {
      match leader
      case Lost =>
        terminated := true;
        exitStatus := None;
        Record(OwnershipLost);
      case StillRunning =>
        if errors == [] {
          Record(DidNotExit);
        }
        Kill();
      case ExitedWith(status) =>
        if status.None? {
          exitStatus := None;
          Record(StatusUnknown);
        } else {
          terminated := true;
          exitStatus := status;
          if status.value != 0 {
            Record(BadStatus(status.value));
          }
        }
    }

    /** The requests in order, until one is given up, and then the unload unless the daemon is gone. */
    method Requests(requests: seq<Request>)
      requires Valid() && plan == requests && Now() == Ready(0, true) && lineAt <= |lines|
      modifies this`lineAt, this`pipeAt, this`eof, this`trace, this`errors, this`reqs, this`unloadResult
      ensures Valid()
      ensures Now().Unloaded? || Now().Gone?
      ensures Now().Unloaded? ==> unloadResult.Acknowledged?
      ensures Now() == Unloaded(true) ==> Recorded(|plan|)
      ensures Now() == Unloaded(true) <==> CleanFrom(lines, pipe, requests, 0, old(lineAt), old(pipeAt))
    {
      hide Watch, CleanFrom, RequestAt, FirstOf, PipeOpen;
      ghost var clean := CleanFrom(lines, pipe, requests, 0, lineAt, pipeAt);
      var i := 0;
      var usable := true;
      while i < |requests| && usable
        invariant 0 <= i <= |requests| && Valid() && lineAt <= |lines|
        invariant usable ==> Now().Ready? && Now().next == i && (Now().ok ==> Recorded(i))
        invariant !usable ==> Now().Stopped? || Now().Gone?
        invariant Now().Gone? <==> eof
        invariant usable && Now().ok ==> (clean <==> CleanFrom(lines, pipe, requests, i, lineAt, pipeAt))
        invariant !(usable && Now().ok) ==> !clean
      {
        ghost var good, a, b := Now().ok, lineAt, pipeAt;
        usable := RunRequest(requests[i], i);
        if good && usable && Now().ok {
          CleanStep(lines, pipe, requests, i, a, b, lineAt - 1);
        } else if good {
          NotCleanStep(lines, pipe, requests, i, a, b);
        }
        i := i + 1;
      }
      ghost var a, b := lineAt, pipeAt;
      if usable {
        CleanEnd(lines, pipe, requests, a, b);
      }
      if !eof {
        UnloadModel();
      }
    }

    /** Load, requests, unload. */
    method Converse(requests: seq<Request>)
      requires Valid() && plan == requests && trace == [] && !loaded && lineAt <= |lines|
      modifies this`lineAt, this`pipeAt, this`eof, this`trace, this`errors, this`reqs, this`loaded, this`unloadResult
      ensures Valid()
      ensures Now() == Unloaded(true) || errors != []
      ensures Now() == Unloaded(true) ==> loaded && unloadResult.Acknowledged? && Recorded(|plan|)
      ensures Now() == Unloaded(true) <==> CleanSession(lines, pipe, requests, old(lineAt), old(pipeAt))
    {
      ghost var a, b := lineAt, pipeAt;
      var ok := Send(Load);
      hide Watch, CleanFrom, FirstOf;
      if !ok {
        Record(StdinClosed(Load));
      } else {
        ok := AwaitLoaded();
        if ok {
          ghost var l := lineAt - 1;
          Requests(requests);
          LoadedOnce(lines, pipe, requests, a, b, l);
        }
      }
    }

    /** A session with a daemon that was started. */
    method Session(requests: seq<Request>)
      requires Valid() && plan == requests && trace == [] && lineAt <= |lines|
      requires !loaded && !terminated && !killedByDriver
      modifies this`lineAt, this`pipeAt, this`eof, this`trace, this`errors, this`reqs, this`loaded, this`unloadResult
      modifies this`terminated, this`killedByDriver, this`exitStatus
      ensures !Now().Broken? && (errors == [] <==> Now() == Unloaded(true) && leader == ExitedWith(Some(0)))
      ensures errors == [] <==>
        leader == ExitedWith(Some(0)) && CleanSession(lines, pipe, requests, old(lineAt), old(pipeAt))
      ensures errors == [] ==> loaded && unloadResult.Acknowledged? && !killedByDriver && exitStatus == Some(0)
      ensures errors == [] ==>
        forall i :: 0 <= i < |requests| ==> requests[i].id in reqs && reqs[requests[i].id].doneSeen
    {
      hide Watch, CleanSession;
      Converse(requests);
      assert errors == [] <==> Now() == Unloaded(true);
      assert Now() == Unloaded(true) ==>
        forall i :: 0 <= i < |requests| ==> requests[i].id in reqs && reqs[requests[i].id].doneSeen;
      hide Unblemished;
      Finish();
    }

    /** One session. It returns 0 exactly if the trace is a clean one and the daemon then exited by
        itself with status 0; and whatever happens, the trace is one of the protocol. */
    method Run(requests: seq<Request>) returns (rc: int)
      requires errors == [] && trace == [] && !eof && !terminated && !killedByDriver && !loaded && lineAt <= |lines|
      modifies this
      ensures plan == requests && !Watch(trace, requests).Broken?
      ensures rc == 0 || rc == 1
      ensures rc == 0 <==> Watch(trace, requests) == Unloaded(true) && leader == ExitedWith(Some(0))
      ensures rc == 0 <==>
        && spawns && leader == ExitedWith(Some(0))
        && CleanSession(lines, pipe, requests, old(lineAt), old(pipeAt))
      ensures rc == 0 ==> forall i :: 0 <= i < |requests| ==> DoneAfterSent(trace, requests[i])
      ensures rc == 0 ==> exists m, u :: Complete(trace, requests, m, u)
      ensures rc == 0 ==> loaded && unloadResult.Acknowledged? && !killedByDriver && exitStatus == Some(0)
      ensures rc == 0 ==> forall i :: 0 <= i < |requests| ==> requests[i].id in reqs && reqs[requests[i].id].doneSeen
    {
      var table := FreshTable(requests);
      reqs, plan := table, requests;
      hide Watch, CleanSession, Complete, Untouched, DoneAfterSent;
      NothingSeen(requests);
      if !spawns {
        Record(SpawnFailed);
        return 1;
      }
      Session(requests);
      rc := if errors == [] then 0 else 1;
      if rc == 0 {
        CleanMeansComplete(trace, requests);
        AllDone(trace, requests);
      }
    }
  }
}

/** The message protocol of one daemon session: what the Driver of scripts/agentic_gate_driver.py
    sends and receives, as a monitor over its trace. */
module Session {

  /** What a key of a parsed event holds; Null also stands for a missing key. */
  datatype Value = Null | Bool(b: bool) | Int(n: int) | Float(r: real) | Str(s: string) | Other

  datatype Event = Event(typ: Value, id: Value, attempt: Value)

  datatype Request = Request(id: string, attempt: int)

  datatype Message = Load | Generate(req: Request) | Commit(req: Request) | Unload

  datatype Obs =
    | Sent(msg: Message)
    | Refused(msg: Message)    // the daemon's stdin was closed
    | Got(ev: Event)
    | Ended                    // end of the daemon's output
    | Expired                  // a deadline passed

  /** `==` between a JSON value and an integer: true is 1, and 2.0 is 2. */
  predicate EqualsInt(v: Value, n: int) {
    match v
    case Bool(b) => (if b then 1 else 0) == n
    case Int(k) => k == n
    case Float(r) => r == n as real
    case _ => false
  }

  predicate IsReady(ev: Event, req: Request) {
    ev.typ == Str("commit_ready") && ev.id == Str(req.id) && EqualsInt(ev.attempt, req.attempt)
  }

  /** Unlike IsReady, `done` must carry a true integer. */
  predicate IsDone(ev: Event, req: Request) {
    ev.typ == Str("done") && ev.id == Str(req.id) && ev.attempt == Int(req.attempt)
  }

  predicate IsError(ev: Event, req: Request) {
    ev.typ == Str("error") && (ev.id == Str(req.id) || ev.id == Null)
  }

  // ---- the monitor ----

  /** ok: every request so far was answered by its own done. */
  datatype Phase =
    | Fresh | Loading
    | Ready(next: nat, ok: bool)
    | Busy(cur: nat, owed: bool, ok: bool)   // owed: a commit_ready still waits for its commit
    | Stopped                                // gave up on a request; unload is still tried
    | Unloading(ok: bool) | Unloaded(ok: bool)
    | Gone                                   // nothing more is sent
    | Broken                                 // not a trace of this protocol

  function AdvanceBusy(p: Phase, o: Obs, plan: seq<Request>): Phase
    requires p.Busy? && p.cur < |plan|
  {
    var req := plan[p.cur];
    if p.owed then
      if o == Sent(Commit(req)) then p.(owed := false) else if o == Refused(Commit(req)) then Stopped else Broken
    else match o {
      case Got(ev) =>
        if IsReady(ev, req) then p.(owed := true)
        else if IsDone(ev, req) then Ready(p.cur + 1, p.ok)
        else if IsError(ev, req) then Ready(p.cur + 1, false)
        else p
      case Ended => Gone
      case Expired => Stopped
      case _ => Broken
    }
  }

  function AdvanceReady(p: Phase, o: Obs, plan: seq<Request>): Phase
    requires p.Ready?
  {
    if p.next < |plan| then
      if o == Sent(Generate(plan[p.next])) then Busy(p.next, false, p.ok)
      else if o == Refused(Generate(plan[p.next])) then Stopped
      else Broken
    else if o == Sent(Unload) then Unloading(p.ok)
    else if o == Refused(Unload) then Gone
    else Broken
  }

  function Advance(p: Phase, o: Obs, plan: seq<Request>): Phase {
    match p
    case Fresh => if o == Sent(Load) then Loading else if o == Refused(Load) then Gone else Broken
    case Loading =>
      if o.Got? then
        if o.ev.typ == Str("loaded") then Ready(0, true) else if o.ev.typ == Str("error") then Gone else Loading
      else if o == Ended || o == Expired then Gone
      else Broken
    case Ready(_, _) => AdvanceReady(p, o, plan)
    case Busy(k, _, _) => if k < |plan| then AdvanceBusy(p, o, plan) else Broken
    case Stopped => if o == Sent(Unload) then Unloading(false) else if o == Refused(Unload) then Gone else Broken
    case Unloading(ok) =>
      if o.Got? then if o.ev.typ == Str("unloaded") then Unloaded(ok) else p
      else if o == Ended || o == Expired then Gone
      else Broken
    case _ => Broken
  }

  /** How an event, the end of output or a deadline moves a request that owes no commit. */
  lemma BusyNext(k: nat, ok: bool, o: Obs, plan: seq<Request>)
    requires k < |plan| && !o.Sent? && !o.Refused?
    ensures Advance(Busy(k, false, ok), o, plan) == AdvanceBusy(Busy(k, false, ok), o, plan)
  {
  }

  function Watch(trace: seq<Obs>, plan: seq<Request>): Phase {
    if trace == [] then Fresh else Advance(Watch(trace[..|trace| - 1], plan), trace[|trace| - 1], plan)
  }

  lemma {:induction false} WatchMore(trace: seq<Obs>, o: Obs, plan: seq<Request>)
    ensures Watch(trace + [o], plan) == Advance(Watch(trace, plan), o, plan)
  {
    hide Advance;
    assert (trace + [o])[..|trace|] == trace;
  }

  // ---- at most one generate is outstanding ----

  /** The done of a request: its id, and its attempt as a true integer. */
  function DoneOf(req: Request): Event {
    Event(Str("done"), Str(req.id), Int(req.attempt))
  }

  /** The event ends the request: its own done, or an error with its id or with none. */
  predicate Answers(ev: Event, req: Request) {
    || (ev.typ == Str("done") && ev.id == Str(req.id) && ev.attempt == Int(req.attempt))
    || (ev.typ == Str("error") && (ev.id == Str(req.id) || ev.id == Null))
  }

  /** The monitor's three tests of an event, field by field. */
  lemma EventTests(ev: Event, req: Request)
    ensures IsDone(ev, req) <==> ev == DoneOf(req)
    ensures IsDone(ev, req) || IsError(ev, req) <==> Answers(ev, req)
    ensures IsReady(ev, req) <==> ReadyFor(ev, req)
  {
  }

  function Unanswered(open: seq<Request>, ev: Event): seq<Request> {
    if open == [] then [] else (if Answers(ev, open[0]) then [] else [open[0]]) + Unanswered(open[1..], ev)
  }

  /** The generates sent that no done or error has answered yet, oldest first. */
  function Outstanding(trace: seq<Obs>): seq<Request> {
    if trace == [] then []
    else
      var open := Outstanding(trace[..|trace| - 1]);
      match trace[|trace| - 1]
      case Sent(Generate(req)) => open + [req]
      case Got(ev) => Unanswered(open, ev)
      case _ => open
  }

  /** What the monitor's phase says about the outstanding generates. */
  ghost predicate OpenAs(p: Phase, open: seq<Request>, plan: seq<Request>) {
    match p
    case Fresh | Loading | Ready(_, _) => open == []
    case Busy(k, _, _) => k < |plan| && open == [plan[k]]
    case Broken => true
    case _ => |open| <= 1
  }

  lemma {:induction false} UnansweredShort(open: seq<Request>, ev: Event)
    requires |open| <= 1
    ensures |Unanswered(open, ev)| <= 1
    ensures open == [] ==> Unanswered(open, ev) == []
    ensures open != [] ==> Unanswered(open, ev) == if Answers(ev, open[0]) then [] else open
  {
    if open != [] {
      assert open[1..] == [] && Unanswered(open[1..], ev) == [];
    }
  }

  lemma {:induction false} OutstandingMore(trace: seq<Obs>, o: Obs)
    ensures Outstanding(trace + [o]) ==
      match o {
        case Sent(Generate(req)) => Outstanding(trace) + [req]
        case Got(ev) => Unanswered(Outstanding(trace), ev)
        case _ => Outstanding(trace)
      }
  {
    assert (trace + [o])[..|trace|] == trace;
  }

  lemma {:induction false} OpenStep(p: Phase, open: seq<Request>, o: Obs, plan: seq<Request>)
    requires OpenAs(p, open, plan)
    ensures OpenAs(Advance(p, o, plan),
      match o {
        case Sent(Generate(req)) => open + [req]
        case Got(ev) => Unanswered(open, ev)
        case _ => open
      }, plan)
  {
    if p.Broken? {
    } else {
      if o.Got? {
        UnansweredShort(open, o.ev);
        if open != [] {
          EventTests(o.ev, open[0]);
        }
      }
      hide Unanswered;
    }
  }

  lemma {:induction false} OpenMatches(trace: seq<Obs>, plan: seq<Request>)
    ensures OpenAs(Watch(trace, plan), Outstanding(trace), plan)
  {
    if trace != [] {
      var before, o := trace[..|trace| - 1], trace[|trace| - 1];
      assert trace == before + [o];
      OpenMatches(before, plan);
      WatchMore(before, o, plan);
      OutstandingMore(before, o);
      hide OpenAs, Watch, Outstanding, Advance, Unanswered;
      OpenStep(Watch(before, plan), Outstanding(before), o, plan);
    }
  }

  /** A trace the monitor accepts stays accepted on every prefix. */
  lemma {:induction false} PrefixAccepted(trace: seq<Obs>, n: nat, plan: seq<Request>)
    requires n <= |trace| && !Watch(trace, plan).Broken?
    ensures !Watch(trace[..n], plan).Broken?
    decreases |trace|
  {
    if n < |trace| {
      var before := trace[..|trace| - 1];
      PrefixAccepted(before, n, plan);
      assert before[..n] == trace[..n];
    } else {
      assert trace[..n] == trace;
    }
  }

  /** At every moment of an accepted session at most one generate is outstanding. */
  lemma {:induction false} OneOutstanding(trace: seq<Obs>, n: nat, plan: seq<Request>)
    requires n <= |trace| && !Watch(trace, plan).Broken?
    ensures |Outstanding(trace[..n])| <= 1
  {
    PrefixAccepted(trace, n, plan);
    OpenMatches(trace[..n], plan);
    hide Outstanding, Watch;
  }

  // ---- commits answer commit_readys ----

  function Commits(trace: seq<Obs>, req: Request): nat {
    if trace == [] then 0
    else Commits(trace[..|trace| - 1], req) + if trace[|trace| - 1] == Sent(Commit(req)) then 1 else 0
  }

  function Readies(trace: seq<Obs>, req: Request): nat {
    if trace == [] then 0
    else
      var o := trace[|trace| - 1];
      Readies(trace[..|trace| - 1], req) + if o.Got? && ReadyFor(o.ev, req) then 1 else 0
  }

  /** A commit_ready with the request's id whose attempt equals the request's, also as a float or a bool. */
  predicate ReadyFor(ev: Event, req: Request) {
    && ev.typ == Str("commit_ready") && ev.id == Str(req.id)
    && (ev.attempt == Int(req.attempt) || ev.attempt == Float(req.attempt as real)
        || (ev.attempt == Bool(true) && req.attempt == 1) || (ev.attempt == Bool(false) && req.attempt == 0))
  }

  predicate Owes(p: Phase, req: Request, plan: seq<Request>) {
    p.Busy? && p.owed && p.cur < |plan| && plan[p.cur] == req
  }

  lemma {:induction false} OwesStep(p: Phase, o: Obs, req: Request, plan: seq<Request>)
    requires !Advance(p, o, plan).Broken?
    ensures o == Sent(Commit(req)) ==> Owes(p, req, plan) && !Owes(Advance(p, o, plan), req, plan)
    ensures !(o.Got? && ReadyFor(o.ev, req)) && Owes(Advance(p, o, plan), req, plan) ==> Owes(p, req, plan)
  {
    if o.Got? {
      EventTests(o.ev, req);
    }
  }

  /** Every commit is covered by a commit_ready of the same id and attempt, also while one is owed. */
  lemma {:induction false} CommitsCovered(trace: seq<Obs>, req: Request, plan: seq<Request>)
    requires !Watch(trace, plan).Broken?
    ensures Commits(trace, req) + (if Owes(Watch(trace, plan), req, plan) then 1 else 0) <= Readies(trace, req)
  {
    if trace != [] {
      var before, o := trace[..|trace| - 1], trace[|trace| - 1];
      assert trace == before + [o];
      PrefixAccepted(trace, |before|, plan);
      CommitsCovered(before, req, plan);
      WatchMore(before, o, plan);
      hide Watch, Advance, Owes;
      OwesStep(Watch(before, plan), o, req, plan);
    }
  }

  // ---- a clean end ----

  /** Where a clean session was loaded, and where each request was sent and done. */
  datatype Marks = Marks(loaded: nat, sent: seq<nat>, done: seq<nat>)

  /** Request i went out at g, and its done came at d with no answer in between. */
  ghost predicate ServedBetween(trace: seq<Obs>, req: Request, g: nat, d: nat) {
    && g < d < |trace|
    && trace[g] == Sent(Generate(req))
    && trace[d] == Got(Event(Str("done"), Str(req.id), Int(req.attempt)))
    && forall j :: g < j < d && trace[j].Got? ==> !Answers(trace[j].ev, req)
  }

  /** Request i was served after the one before it and before `end`. */
  ghost predicate ServedAt(trace: seq<Obs>, plan: seq<Request>, m: Marks, i: nat, end: nat)
    requires |m.sent| == |m.done| <= |plan| && i < |m.done|
  {
    && ServedBetween(trace, plan[i], m.sent[i], m.done[i])
    && (if i == 0 then m.loaded else m.done[i - 1]) < m.sent[i]
    && m.done[i] < end
  }

  /** The first |m.done| requests were served one after the other, after the load and before `end`. */
  ghost predicate Served(trace: seq<Obs>, plan: seq<Request>, m: Marks, end: nat) {
    && m.loaded < end <= |trace| && trace[m.loaded].Got? && trace[m.loaded].ev.typ == Str("loaded")
    && |m.sent| == |m.done| <= |plan|
    && forall i :: 0 <= i < |m.done| ==> ServedAt(trace, plan, m, i, end)
  }

  lemma {:induction false} ServedMore(trace: seq<Obs>, o: Obs, plan: seq<Request>, m: Marks, end: nat)
    requires Served(trace, plan, m, end)
    ensures Served(trace + [o], plan, m, end)
  {
    var more := trace + [o];
    assert forall j :: 0 <= j < |trace| ==> more[j] == trace[j];
    forall i | 0 <= i < |m.done|
      ensures ServedAt(more, plan, m, i, end)
    {
      assert ServedAt(trace, plan, m, i, end);
    }
  }

  /** The request sent at g is being generated and nothing has answered it. */
  ghost predicate Waiting(trace: seq<Obs>, req: Request, g: nat) {
    && g < |trace| && trace[g] == Sent(Generate(req))
    && forall j :: g < j < |trace| && trace[j].Got? ==> !Answers(trace[j].ev, req)
  }

  lemma {:induction false} WaitingMore(trace: seq<Obs>, o: Obs, req: Request, g: nat)
    requires Waiting(trace, req, g)
    ensures !(o.Got? && (IsDone(o.ev, req) || IsError(o.ev, req))) ==> Waiting(trace + [o], req, g)
    ensures o.Got? && IsDone(o.ev, req) ==> ServedBetween(trace + [o], req, g, |trace|)
  {
    if o.Got? {
      EventTests(o.ev, req);
    }
    hide IsDone, IsError, Answers;
    var more := trace + [o];
    assert more[|trace|] == o && forall j :: 0 <= j < |trace| ==> more[j] == trace[j];
  }

  lemma {:induction false} WaitingNew(trace: seq<Obs>, req: Request)
    ensures Waiting(trace + [Sent(Generate(req))], req, |trace|)
  {
  }

  lemma {:induction false} ServedOneMore(trace: seq<Obs>, plan: seq<Request>, m: Marks, g: nat)
    requires Served(trace, plan, m, g) && |m.done| < |plan| && g < |trace| - 1
    requires ServedBetween(trace, plan[|m.done|], g, |trace| - 1)
    ensures Served(trace, plan, Marks(m.loaded, m.sent + [g], m.done + [|trace| - 1]), |trace|)
  {
    var m' := Marks(m.loaded, m.sent + [g], m.done + [|trace| - 1]);
    forall i | 0 <= i < |m.done|
      ensures ServedAt(trace, plan, m', i, |trace|)
    {
      assert ServedAt(trace, plan, m, i, g);
      hide ServedBetween;
    }
    assert ServedAt(trace, plan, m', |m.done|, |trace|) by {
      hide ServedBetween;
      if |m.done| > 0 {
        assert ServedAt(trace, plan, m, |m.done| - 1, g);
      }
    }
    hide ServedAt;
  }

  /** Serving marks for the phases that still can end cleanly. */
  ghost predicate Tracked(trace: seq<Obs>, plan: seq<Request>, p: Phase, m: Marks, at: nat) {
    match p
    case Ready(k, ok) => ok ==> Served(trace, plan, m, |trace|) && |m.done| == k
    case Busy(k, _, ok) => ok ==> Served(trace, plan, m, at) && |m.done| == k < |plan| && Waiting(trace, plan[k], at)
    case Unloading(ok) =>
      ok ==> Served(trace, plan, m, at) && |m.done| == |plan| && at < |trace| && trace[at] == Sent(Unload)
    case Unloaded(ok) =>
      && (ok ==> Served(trace, plan, m, at) && |m.done| == |plan| && at < |trace| - 1 && trace[at] == Sent(Unload))
      && 0 < |trace| && trace[|trace| - 1].Got? && trace[|trace| - 1].ev.typ == Str("unloaded")
    case _ => true
  }

  lemma {:induction false} TrackReady(trace: seq<Obs>, o: Obs, plan: seq<Request>, p: Phase, m: Marks, at: nat)
    returns (at': nat)
    requires p.Ready? && Tracked(trace, plan, p, m, at) && !Advance(p, o, plan).Broken?
    ensures Tracked(trace + [o], plan, Advance(p, o, plan), m, at')
  {
    at' := |trace|;
    if p.ok {
      ServedMore(trace, o, plan, m, |trace|);
      if p.next < |plan| && o == Sent(Generate(plan[p.next])) {
        WaitingNew(trace, plan[p.next]);
      }
    }
    hide Served, Waiting;
    assert (trace + [o])[|trace|] == o;
  }

  lemma {:induction false} TrackDone(trace: seq<Obs>, o: Obs, plan: seq<Request>, p: Phase, m: Marks, at: nat)
    returns (m': Marks)
    requires p.Busy? && p.ok && Tracked(trace, plan, p, m, at) && o.Got? && IsDone(o.ev, plan[p.cur])
    ensures Served(trace + [o], plan, m', |trace| + 1) && |m'.done| == p.cur + 1
  {
    assert at < |trace|;
    ServedMore(trace, o, plan, m, at);
    WaitingMore(trace, o, plan[p.cur], at);
    hide Served, Waiting, ServedBetween;
    ServedOneMore(trace + [o], plan, m, at);
    m' := Marks(m.loaded, m.sent + [at], m.done + [|trace|]);
  }

  lemma {:induction false} TrackWaiting(trace: seq<Obs>, o: Obs, plan: seq<Request>, p: Phase, m: Marks, at: nat)
    requires p.Busy? && p.ok && Tracked(trace, plan, p, m, at) && !Advance(p, o, plan).Broken?
    requires p.owed || !(o.Got? && IsDone(o.ev, plan[p.cur]))
    ensures Tracked(trace + [o], plan, Advance(p, o, plan), m, at)
  {
    ServedMore(trace, o, plan, m, at);
    WaitingMore(trace, o, plan[p.cur], at);
    hide Served, Waiting, ServedBetween;
  }

  lemma {:induction false} TrackBusy(trace: seq<Obs>, o: Obs, plan: seq<Request>, p: Phase, m: Marks, at: nat)
    returns (m': Marks)
    requires p.Busy? && Tracked(trace, plan, p, m, at) && !Advance(p, o, plan).Broken?
    ensures Tracked(trace + [o], plan, Advance(p, o, plan), m', at)
  {
    m' := m;
    if p.ok {
      if !p.owed && o.Got? && IsDone(o.ev, plan[p.cur]) {
        m' := TrackDone(trace, o, plan, p, m, at);
      } else {
        TrackWaiting(trace, o, plan, p, m, at);
      }
    }
    hide Served, Waiting;
  }

  lemma {:induction false} TrackEnd(trace: seq<Obs>, o: Obs, plan: seq<Request>, p: Phase, m: Marks, at: nat)
    requires p.Unloading? && Tracked(trace, plan, p, m, at) && !Advance(p, o, plan).Broken?
    ensures Tracked(trace + [o], plan, Advance(p, o, plan), m, at)
  {
    if p.ok {
      ServedMore(trace, o, plan, m, at);
    }
    hide Served;
  }

  lemma {:induction false} TrackLoad(trace: seq<Obs>, o: Obs, plan: seq<Request>) returns (m: Marks)
    ensures Tracked(trace + [o], plan, Advance(Loading, o, plan), m, 0)
  {
    m := Marks(|trace|, [], []);
    assert (trace + [o])[|trace|] == o;
  }

  lemma {:induction false} Track(trace: seq<Obs>, plan: seq<Request>) returns (m: Marks, at: nat)
    requires !Watch(trace, plan).Broken?
    ensures Tracked(trace, plan, Watch(trace, plan), m, at)
  {
    m, at := Marks(0, [], []), 0;
    if trace != [] {
      var before, o := trace[..|trace| - 1], trace[|trace| - 1];
      assert trace == before + [o];
      PrefixAccepted(trace, |before|, plan);
      assert trace[..|before|] == before;
      m, at := Track(before, plan);
      WatchMore(before, o, plan);
      var p := Watch(before, plan);
      hide Watch, Served, Waiting;
      if p.Ready? {
        at := TrackReady(before, o, plan, p, m, at);
      } else if p.Busy? {
        m := TrackBusy(before, o, plan, p, m, at);
      } else if p.Unloading? {
        TrackEnd(before, o, plan, p, m, at);
      } else if p.Loading? {
        m := TrackLoad(before, o, plan);
        at := 0;
      }
    }
  }

  /** What a clean end means: the model loaded, then every request in order was sent and got its own
      done with no error in between, then unload was sent and acknowledged. */
  ghost predicate Complete(trace: seq<Obs>, plan: seq<Request>, m: Marks, u: nat) {
    && Served(trace, plan, m, u) && |m.done| == |plan|
    && u < |trace| - 1 && trace[u] == Sent(Unload)
    && trace[|trace| - 1].Got? && trace[|trace| - 1].ev.typ == Str("unloaded")
  }

  lemma {:induction false} CleanMeansComplete(trace: seq<Obs>, plan: seq<Request>)
    requires Watch(trace, plan) == Unloaded(true)
    ensures exists m, u :: Complete(trace, plan, m, u)
  {
    var m, u := Track(trace, plan);
    hide Served, Watch;
    assert Complete(trace, plan, m, u);
  }
}

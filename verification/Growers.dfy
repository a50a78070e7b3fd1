/** The scratch methods that can grow a slot: the closure loop of scripts/check-scratch-growth.py
    (growers) over the map from each function to the names its body calls. */
module Growers {

  type Calls = map<string, set<string>>

  const PRIMITIVES: set<string> := {"grow_scratch_buffer", "grow_scratch_slot"}

  /** path runs along calls, from a defined function to a primitive. */
  ghost predicate IsPath(calls: Calls, path: seq<string>) {
    && |path| >= 1 && path[|path| - 1] in PRIMITIVES
    && forall i :: 0 <= i < |path| - 1 ==> path[i] in calls && path[i + 1] in calls[path[i]]
  }

  ghost predicate Reaches(calls: Calls, name: string) {
    exists path :: IsPath(calls, path) && path[0] == name
  }

  /** Only names that reach a primitive have been added so far. */
  ghost predicate Sound(calls: Calls, grow: set<string>) {
    PRIMITIVES <= grow && forall n :: n in grow ==> Reaches(calls, n)
  }

  ghost predicate Closed(calls: Calls, grow: set<string>) {
    forall n :: n in calls && calls[n] * grow != {} ==> n in grow
  }

  lemma {:induction false} PathExtends(calls: Calls, name: string, path: seq<string>)
    requires name in calls && IsPath(calls, path) && path[0] in calls[name]
    ensures Reaches(calls, name)
  {
    hide PRIMITIVES;
    var longer := [name] + path;
    assert forall i :: 1 <= i < |longer| ==> longer[i] == path[i - 1];
    assert IsPath(calls, longer) && longer[0] == name;
  }

  lemma {:induction false} PrimitiveReaches(calls: Calls, name: string)
    requires name in PRIMITIVES
    ensures Reaches(calls, name)
  {
    assert IsPath(calls, [name]);
  }

  lemma {:induction false} CalleeReaches(calls: Calls, name: string, callee: string)
    requires name in calls && callee in calls[name] && Reaches(calls, callee)
    ensures Reaches(calls, name)
  {
    hide PRIMITIVES;
    var path :| IsPath(calls, path) && path[0] == callee;
    PathExtends(calls, name, path);
  }

  lemma {:induction false} CallerReaches(calls: Calls, name: string, grow: set<string>)
    requires Sound(calls, grow) && name in calls && calls[name] * grow != {}
    ensures Reaches(calls, name)
  {
    hide PRIMITIVES;
    var callee :| callee in calls[name] * grow;
    CalleeReaches(calls, name, callee);
  }

  /** A closed set holds every function on a path, back from the primitive. */
  lemma {:induction false} PathInside(calls: Calls, grow: set<string>, path: seq<string>)
    requires Closed(calls, grow) && PRIMITIVES <= grow && IsPath(calls, path)
    ensures path[0] in grow
    decreases |path|
  {
    if |path| > 1 {
      var rest := path[1..];
      assert forall i :: 0 <= i < |rest| ==> rest[i] == path[i + 1];
      assert IsPath(calls, rest);
      PathInside(calls, grow, rest);
      assert path[1] in calls[path[0]] * grow;
    }
  }

  /** A set that is sound and closed is the set of all functions that reach a primitive. */
  lemma {:induction false} SoundClosedExact(calls: Calls, grow: set<string>, name: string)
    requires Sound(calls, grow) && Closed(calls, grow)
    ensures name in grow <==> Reaches(calls, name)
  {
    if Reaches(calls, name) {
      var path :| IsPath(calls, path) && path[0] == name;
      PathInside(calls, grow, path);
    }
  }

  lemma {:induction false} SoundMore(calls: Calls, name: string, grow: set<string>)
    requires Sound(calls, grow) && name in calls && calls[name] * grow != {}
    ensures Sound(calls, grow + {name})
  {
    CallerReaches(calls, name, grow);
    hide Reaches;
  }

  predicate Settled(calls: Calls, name: string, grow: set<string>) {
    name in calls && (calls[name] * grow != {} ==> name in grow)
  }

  lemma {:induction false} AllSettled(calls: Calls, order: seq<string>, grow: set<string>)
    requires (set n | n in order) == calls.Keys && forall j :: 0 <= j < |order| ==> Settled(calls, order[j], grow)
    ensures Closed(calls, grow)
  {
    forall n | n in calls && calls[n] * grow != {}
      ensures n in grow
    {
      assert n in (set m | m in order);
      var j :| 0 <= j < |order| && order[j] == n;
      assert Settled(calls, order[j], grow);
    }
  }

  /** One pass over the functions, in the given order. */
  method Pass(calls: Calls, order: seq<string>, start: set<string>) returns (grow: set<string>, changed: bool)
    requires (set n | n in order) == calls.Keys && Sound(calls, start) && start <= calls.Keys + PRIMITIVES
    ensures Sound(calls, grow) && start <= grow <= calls.Keys + PRIMITIVES
    ensures changed <==> grow != start
    ensures !changed ==> Closed(calls, grow)
  {
    hide Sound, PRIMITIVES, Closed;
    grow, changed := start, false;
    for i := 0 to |order|
      invariant Sound(calls, grow) && start <= grow <= calls.Keys + PRIMITIVES
      invariant changed <==> grow != start
      invariant !changed ==> forall j :: 0 <= j < i ==> Settled(calls, order[j], grow)
    {
      var name := order[i];
      assert name in (set n | n in order);
      if name !in grow && calls[name] * grow != {} {
        SoundMore(calls, name, grow);
        grow := grow + {name};
        changed := true;
      }
    }
    if !changed {
      AllSettled(calls, order, grow);
    }
  }

  /** growers: for any call map and any iteration order, exactly the functions other than the
      primitives from which some chain of calls leads to a primitive. */
  method FindGrowers(calls: Calls, order: seq<string>) returns (result: set<string>)
    requires (set n | n in order) == calls.Keys
    ensures forall n :: n in result <==> n !in PRIMITIVES && Reaches(calls, n)
  {
    var grow := PRIMITIVES;
    forall n | n in PRIMITIVES
      ensures Reaches(calls, n)
    {
      PrimitiveReaches(calls, n);
    }
    hide IsPath, Reaches, PRIMITIVES;
    var changed := true;
    while changed
      invariant Sound(calls, grow) && grow <= calls.Keys + PRIMITIVES
      invariant !changed ==> Closed(calls, grow)
      decreases (calls.Keys + PRIMITIVES) - grow, changed
    {
      ghost var was := grow;
      grow, changed := Pass(calls, order, grow);
      if changed {
        MoreLeft(was, grow, calls.Keys + PRIMITIVES);
      }
    }
    forall n
      ensures n in grow <==> Reaches(calls, n)
    {
      SoundClosedExact(calls, grow, n);
    }
    result := grow - PRIMITIVES;
  }

  lemma MoreLeft(was: set<string>, now: set<string>, all: set<string>)
    requires was <= now <= all && was != now
    ensures all - now < all - was
  {
    var n :| n in now && n !in was;
    assert n in all - was && n !in all - now;
  }
}

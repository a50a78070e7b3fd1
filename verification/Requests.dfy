/** The generate requests of a gate session (build_requests, scripts/agentic_gate_driver.py). */
module Requests {
  import opened Wrappers

  datatype Generate = Generate(id: string, attempt: nat, prompt: string, system: string, maxTokens: nat, thinking: bool)

  function Digit(d: nat): (c: char)
    requires d < 10
    ensures c as int == '0' as int + d
  {
    ('0' as int + d) as char
  }

  function Decimal(n: nat): string {
    if n < 10 then [Digit(n)] else Decimal(n / 10) + [Digit(n % 10)]
  }

  lemma {:induction false} DecimalInjective(a: nat, b: nat)
    requires Decimal(a) == Decimal(b)
    ensures a == b
  {
    var s, t := Decimal(a), Decimal(b);
    assert s[|s| - 1] == t[|t| - 1];
    assert a % 10 == b % 10;
    if a >= 10 && b >= 10 {
      assert s[..|s| - 1] == Decimal(a / 10) && t[..|t| - 1] == Decimal(b / 10);
      DecimalInjective(a / 10, b / 10);
    }
  }

  /** What a string of decimal digits stands for. */
  function Value(s: string): int {
    if s == [] then 0 else 10 * Value(s[..|s| - 1]) + (s[|s| - 1] as int - '0' as int)
  }

  /** Decimal writes digits that read back as the number. */
  lemma {:induction false} DecimalReads(n: nat)
    ensures Value(Decimal(n)) == n && forall i :: 0 <= i < |Decimal(n)| ==> '0' <= Decimal(n)[i] <= '9'
    ensures |Decimal(n)| >= 1 && (|Decimal(n)| > 1 ==> Decimal(n)[0] != '0')
  {
    var s := Decimal(n);
    if n < 10 {
      assert s[..0] == [];
    } else {
      DecimalReads(n / 10);
      assert s[..|s| - 1] == Decimal(n / 10);
      if |s| == 2 {
        assert Decimal(n / 10)[..0] == [];
      }
    }
  }

  /** c<idx>_t<turn>, turn 1 or 2. */
  function Id(idx: nat, second: bool): string {
    "c" + Decimal(idx) + (if second then "_t2" else "_t1")
  }

  lemma {:induction false} IdInjective(i: nat, second: bool, j: nat, second': bool)
    requires Id(i, second) == Id(j, second')
    ensures i == j && second == second'
  {
    var s, t := Id(i, second), Id(j, second');
    assert s[|s| - 1] == t[|t| - 1];
    assert s[1..|s| - 3] == Decimal(i) && t[1..|t| - 3] == Decimal(j);
    DecimalInjective(i, j);
  }

  /** What a session says: the user's prompt, and the fixed reply to a tool call. */
  datatype Script = Script(user: string, toolReply: string)

  predicate WellFormed(cells: seq<seq<string>>, n: nat)
    requires n <= |cells|
  {
    forall i :: 0 <= i < n ==> |cells[i]| == 5
  }

  /** The requests of the first n cells (model, system file, clamp, multi, label), in send order. */
  function Turns(cells: seq<seq<string>>, systems: seq<string>, script: Script, n: nat): seq<Generate>
    requires n <= |cells| && n <= |systems| && WellFormed(cells, n)
  {
    if n == 0 then []
    else
      var before := Turns(cells, systems, script, n - 1);
      var cell := cells[n - 1];
      before
      + [Generate(Id(n - 1, false), |before| + 1, script.user, systems[n - 1], 256, cell[2] != "1")]
      + if cell[3] == "1" then [Generate(Id(n - 1, true), |before| + 2, script.toolReply, "", 128, false)] else []
  }

  /** Where a request comes from. */
  ghost predicate FromCell(g: Generate, n: nat) {
    exists idx: nat, second :: idx < n && g.id == Id(idx, second)
  }

  /** The n-th cell adds its one or two requests after all earlier ones. */
  lemma {:induction false} TurnsMore(cells: seq<seq<string>>, systems: seq<string>, script: Script, n: nat)
    requires 0 < n <= |cells| && n <= |systems| && WellFormed(cells, n)
    ensures var before, all := Turns(cells, systems, script, n - 1), Turns(cells, systems, script, n);
      && |before| < |all| <= |before| + 2
      && (forall k :: 0 <= k < |before| ==> all[k] == before[k])
      && (forall k :: |before| <= k < |all| ==> all[k].id == Id(n - 1, k == |before| + 1) && all[k].attempt == k + 1)
  {
    hide Id;
  }

  /** How many of the first n cells have a second turn. */
  function Seconds(cells: seq<seq<string>>, n: nat): (k: nat)
    requires n <= |cells| && WellFormed(cells, n)
  {
    if n == 0 then 0 else Seconds(cells, n - 1) + if cells[n - 1][3] == "1" then 1 else 0
  }

  lemma {:induction false} SecondsMore(cells: seq<seq<string>>, i: nat, n: nat)
    requires i < n <= |cells| && WellFormed(cells, n)
    ensures Seconds(cells, i) + (if cells[i][3] == "1" then 1 else 0) <= Seconds(cells, n)
    decreases n
  {
    if i < n - 1 {
      SecondsMore(cells, i, n - 1);
    }
  }

  lemma {:induction false} TurnsCount(cells: seq<seq<string>>, systems: seq<string>, script: Script, n: nat)
    requires n <= |cells| && n <= |systems| && WellFormed(cells, n)
    ensures |Turns(cells, systems, script, n)| == n + Seconds(cells, n)
  {
    hide Id;
    if n > 0 {
      TurnsCount(cells, systems, script, n - 1);
    }
  }

  lemma {:induction false} TurnsKept(cells: seq<seq<string>>, systems: seq<string>, script: Script, i: nat, n: nat,
                                     k: nat)
    requires i <= n <= |cells| && n <= |systems| && WellFormed(cells, n) && k < |Turns(cells, systems, script, i)|
    ensures k < |Turns(cells, systems, script, n)|
    ensures Turns(cells, systems, script, n)[k] == Turns(cells, systems, script, i)[k]
    decreases n
  {
    if i < n {
      hide Id, Turns;
      TurnsKept(cells, systems, script, i, n - 1, k);
      TurnsMore(cells, systems, script, n);
    }
  }

  /** The requests of cell idx, field by field: first the user's prompt under the cell's system prompt with 256
      tokens and thinking unless clamped; then, for a multi-turn cell, the tool reply without a system prompt, with
      128 tokens and no thinking. They stand after one request for each earlier cell and one for each of its
      second turns, and there are no others. */
  lemma {:induction false} TurnsOfCell(cells: seq<seq<string>>, systems: seq<string>, script: Script, n: nat, idx: nat)
    requires idx < n <= |cells| && n <= |systems| && WellFormed(cells, n)
    ensures var all, k := Turns(cells, systems, script, n), idx + Seconds(cells, idx);
      && |all| == n + Seconds(cells, n) && k < |all|
      && all[k] == Generate("c" + Decimal(idx) + "_t1", k + 1, script.user, systems[idx], 256, cells[idx][2] != "1")
      && (cells[idx][3] == "1" ==>
            && k + 1 < |all|
            && all[k + 1] == Generate("c" + Decimal(idx) + "_t2", k + 2, script.toolReply, "", 128, false))
  {
    hide Turns, Decimal, Seconds;
    TurnsCount(cells, systems, script, n);
    TurnsCount(cells, systems, script, idx);
    SecondsMore(cells, idx, n);
    var k := idx + Seconds(cells, idx);
    CellTurns(cells, systems, script, idx);
    TurnsKept(cells, systems, script, idx + 1, n, k);
    if cells[idx][3] == "1" {
      TurnsKept(cells, systems, script, idx + 1, n, k + 1);
    }
  }

  lemma {:induction false} CellTurns(cells: seq<seq<string>>, systems: seq<string>, script: Script, idx: nat)
    requires idx < |cells| && idx < |systems| && WellFormed(cells, idx + 1)
    ensures var all, k := Turns(cells, systems, script, idx + 1), |Turns(cells, systems, script, idx)|;
      && |all| == k + (if cells[idx][3] == "1" then 2 else 1)
      && all[k] == Generate("c" + Decimal(idx) + "_t1", k + 1, script.user, systems[idx], 256, cells[idx][2] != "1")
      && (cells[idx][3] == "1" ==>
            all[k + 1] == Generate("c" + Decimal(idx) + "_t2", k + 2, script.toolReply, "", 128, false))
  {
    assert Id(idx, false) == "c" + Decimal(idx) + "_t1" && Id(idx, true) == "c" + Decimal(idx) + "_t2";
    hide Id, Decimal;
  }

  lemma {:induction false} TurnsFromCells(cells: seq<seq<string>>, systems: seq<string>, script: Script, n: nat)
    requires n <= |cells| && n <= |systems| && WellFormed(cells, n)
    ensures forall k :: 0 <= k < |Turns(cells, systems, script, n)| ==> FromCell(Turns(cells, systems, script, n)[k], n)
  {
    if n > 0 {
      TurnsFromCells(cells, systems, script, n - 1);
      TurnsMore(cells, systems, script, n);
      hide Id, Turns;
      var before, all := Turns(cells, systems, script, n - 1), Turns(cells, systems, script, n);
      forall k | 0 <= k < |all|
        ensures FromCell(all[k], n)
      {
        if k < |before| {
          assert FromCell(before[k], n - 1);
        } else {
          assert all[k].id == Id(n - 1, k == |before| + 1);
        }
      }
    }
  }

  /** Attempt ids are 1, 2, ... in send order, and no two requests share an id. */
  lemma {:induction false} TurnsDistinct(cells: seq<seq<string>>, systems: seq<string>, script: Script, n: nat)
    requires n <= |cells| && n <= |systems| && WellFormed(cells, n)
    ensures var all := Turns(cells, systems, script, n);
      && (forall k :: 0 <= k < |all| ==> all[k].attempt == k + 1)
      && (forall j, k :: 0 <= j < k < |all| ==> all[j].id != all[k].id)
  {
    if n > 0 {
      TurnsDistinct(cells, systems, script, n - 1);
      TurnsFromCells(cells, systems, script, n - 1);
      TurnsMore(cells, systems, script, n);
      hide Id, Turns;
      var before, all := Turns(cells, systems, script, n - 1), Turns(cells, systems, script, n);
      forall j, k | 0 <= j < k < |all|
        ensures all[j].id != all[k].id
      {
        if |before| <= k {
          if j < |before| {
            assert FromCell(before[j], n - 1);
            var idx: nat, second :| idx < n - 1 && all[j].id == Id(idx, second);
            if Id(idx, second) == Id(n - 1, k == |before| + 1) {
              IdInjective(idx, second, n - 1, k == |before| + 1);
            }
          } else if Id(n - 1, false) == Id(n - 1, true) {
            IdInjective(n - 1, false, n - 1, true);
          }
        }
      }
    }
  }

  /** None stands for the error on a cell that does not split into five fields. */
  method BuildRequests(cells: seq<seq<string>>, systems: seq<string>, script: Script) returns (r: Option<seq<Generate>>)
    ensures var n := if |cells| <= |systems| then |cells| else |systems|;
      && (r.Some? <==> forall i :: 0 <= i < n ==> |cells[i]| == 5)
      && (r.Some? ==> r.value == Turns(cells, systems, script, n))
    ensures r.Some? ==> forall k :: 0 <= k < |r.value| ==> r.value[k].attempt == k + 1
    ensures r.Some? ==> forall j, k :: 0 <= j < k < |r.value| ==> r.value[j].id != r.value[k].id
  {
    var requests: seq<Generate> := [];
    var attempt := 0;
    var n := if |cells| <= |systems| then |cells| else |systems|;
    for idx := 0 to n
      invariant WellFormed(cells, idx) && requests == Turns(cells, systems, script, idx) && attempt == |requests|
    {
      var cell := cells[idx];
      if |cell| != 5 {
        return None;
      }
      attempt := attempt + 1;
      requests := requests + [Generate(Id(idx, false), attempt, script.user, systems[idx], 256, cell[2] != "1")];
      if cell[3] == "1" {
        attempt := attempt + 1;
        requests := requests + [Generate(Id(idx, true), attempt, script.toolReply, "", 128, false)];
      }
    }
    TurnsDistinct(cells, systems, script, n);
    r := Some(requests);
  }
}

/** Ordered, short-circuiting validation chains: the first failing check
    decides the rejection reason, even when later checks fail too. */
module Precedence {
  import opened Entities

  /** One link of a chain: whether the condition holds, and the reason
      reported when it is the first that does not. */
  datatype Check = Check(holds: bool, reason: Reason)

  /** Check `i` is the first failing check of the chain. */
  predicate FailsFirst(checks: seq<Check>, i: int)
  {
    && 0 <= i < |checks|
    && !checks[i].holds
    && forall j | 0 <= j < i :: checks[j].holds
  }

  /** Runs the chain in order and stops at the first failing check. */
  function FirstFailing(checks: seq<Check>): (r: Outcome)
    ensures r.Ok? <==> forall i | 0 <= i < |checks| :: checks[i].holds
    ensures r.Err? ==> exists i :: FailsFirst(checks, i) && checks[i].reason == r.reason
  {
    if |checks| == 0 then Ok
    else if !checks[0].holds then
      assert FailsFirst(checks, 0);
      Err(checks[0].reason)
    else
      var r := FirstFailing(checks[1..]);
      assert r.Ok? ==> forall i | 0 <= i < |checks| :: checks[i].holds by {
        if r.Ok? {
          forall i | 0 <= i < |checks| ensures checks[i].holds {
            if i > 0 { assert checks[i] == checks[1..][i - 1]; }
          }
        }
      }
      assert r.Err? ==> exists i :: FailsFirst(checks, i) && checks[i].reason == r.reason by {
        if r.Err? {
          var k :| FailsFirst(checks[1..], k) && checks[1..][k].reason == r.reason;
          assert checks[k + 1] == checks[1..][k];
          forall j | 0 <= j < k + 1 ensures checks[j].holds {
            if j > 0 { assert checks[j] == checks[1..][j - 1]; }
          }
          assert FailsFirst(checks, k + 1);
        }
      }
      r
  }

  /** At most one check is the first failing one. */
  lemma FailsFirstUnique(checks: seq<Check>, i: int, j: int)
    requires FailsFirst(checks, i) && FailsFirst(checks, j)
    ensures i == j
  {
  }

  /** Conversely: whenever check `i` is the first failing one, the chain
      reports its reason. */
  lemma {:induction false} FirstFailingReports(checks: seq<Check>, i: int)
    requires FailsFirst(checks, i)
    ensures FirstFailing(checks) == Err(checks[i].reason)
  {
    var r := FirstFailing(checks);
    assert r.Err?;
    var k :| FailsFirst(checks, k) && checks[k].reason == r.reason;
    FailsFirstUnique(checks, i, k);
  }
}

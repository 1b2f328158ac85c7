/** The order that the timer queue of libtgm/tgm_event.cpp keeps, on values. */
module TimerQueue {

  /** How many of the first deadlines are earlier than t: where a new deadline t goes, in front of
  equal ones, and how many timers a sample t of the clock expires. */
  function Leading(deadlines: seq<int>, t: int): (k: nat)
    ensures k <= |deadlines|
    ensures forall i | 0 <= i < k :: deadlines[i] < t
    ensures k < |deadlines| ==> deadlines[k] >= t
  {
    if deadlines == [] || deadlines[0] >= t then 0 else 1 + Leading(deadlines[1..], t)
  }

  ghost predicate Sorted(deadlines: seq<int>) {
    forall i, j | 0 <= i < j < |deadlines| :: deadlines[i] <= deadlines[j]
  }

  lemma {:induction false} LeadingIs(deadlines: seq<int>, t: int, k: nat)
    requires k <= |deadlines|
    requires forall i | 0 <= i < k :: deadlines[i] < t
    requires k < |deadlines| ==> deadlines[k] >= t
    ensures Leading(deadlines, t) == k
  {
    if k > 0 {
      assert forall i | 0 <= i < k - 1 :: deadlines[1..][i] == deadlines[i + 1];
      LeadingIs(deadlines[1..], t, k - 1);
    }
  }

  /** In a sorted queue the timers in front are exactly the ones that are earlier. */
  lemma LeadingSplits(deadlines: seq<int>, t: int)
    requires Sorted(deadlines)
    ensures forall i | 0 <= i < |deadlines| :: i < Leading(deadlines, t) <==> deadlines[i] < t
  {
    var k := Leading(deadlines, t);
    forall i | k <= i < |deadlines|
      ensures deadlines[i] >= t
    {
      assert deadlines[k] <= deadlines[i];
    }
  }

  function InsertDeadline(deadlines: seq<int>, t: int): seq<int> {
    var k := Leading(deadlines, t);
    deadlines[..k] + [t] + deadlines[k..]
  }

  lemma InsertKeepsSorted(deadlines: seq<int>, t: int)
    requires Sorted(deadlines)
    ensures Sorted(InsertDeadline(deadlines, t))
  {
    LeadingSplits(deadlines, t);
  }
}

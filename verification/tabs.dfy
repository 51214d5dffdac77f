/**
  The five-step cursor of the event wizard. The steps form a fixed ordered
  list; "Next" and "Back" move the active step one place forward or back and
  do nothing at the ends. The two end predicates decide whether the Back
  button is shown and whether the last button submits instead of advancing.
 */
module Tabs {

  datatype Tab = Details | DateTime | Location | Participation | Additional

  /** The ordered list of steps the component navigates through. */
  const TABS: seq<Tab> := [Details, DateTime, Location, Participation, Additional]

  /** The step shown when the form is first opened. */
  const InitialTab: Tab := Details

  /** The ordering of the steps, given independently of `TABS`: the position
      of each step in the wizard. */
  function Position(t: Tab): (i: nat)
    ensures i < |TABS| && TABS[i] == t
  {
    match t
    case Details => 0
    case DateTime => 1
    case Location => 2
    case Participation => 3
    case Additional => 4
  }

  /** Every position of the list holds the step of that position, so the
      list has no repeated step. */
  lemma PositionOfEntry(i: nat)
    requires i < |TABS|
    ensures Position(TABS[i]) == i
  {
  }

  /** `Array.prototype.indexOf` on a sequence: the first position holding `x`,
      or -1 when there is none. */
  function IndexOf<T(==)>(s: seq<T>, x: T): (i: int)
    ensures -1 <= i < |s|
    ensures i == -1 <==> x !in s
    ensures 0 <= i ==> s[i] == x && forall j :: 0 <= j < i ==> s[j] != x
  {
    if |s| == 0 then -1
    else if s[0] == x then 0
    else
      var k := IndexOf(s[1..], x);
      if k == -1 then -1 else k + 1
  }

  /** `TABS.indexOf(activeTab)`: the active step's index in the list, which
      is never -1 because every step is in the list. */
  function CurrentIndex(t: Tab): (i: nat)
    ensures i == Position(t)
  {
    assert TABS[Position(t)] == t;
    var k := IndexOf(TABS, t);
    PositionOfEntry(k);
    k
  }

  /** `handleNext`: advance one step unless already on the last one. */
  function Next(t: Tab): (r: Tab)
    ensures Position(t) < |TABS| - 1 ==> Position(r) == Position(t) + 1
    ensures Position(t) == |TABS| - 1 ==> r == t
  {
    var i := CurrentIndex(t);
    if i < |TABS| - 1 then
      PositionOfEntry(i + 1);
      TABS[i + 1]
    else t
  }

  /** `handleBack`: go back one step unless already on the first one. */
  function Back(t: Tab): (r: Tab)
    ensures Position(t) > 0 ==> Position(r) == Position(t) - 1
    ensures Position(t) == 0 ==> r == t
  {
    var i := CurrentIndex(t);
    if i > 0 then
      PositionOfEntry(i - 1);
      TABS[i - 1]
    else t
  }

  /** `isFirstTab`: the Back button is hidden exactly here. */
  predicate IsFirst(t: Tab)
    ensures IsFirst(t) <==> Position(t) == 0
  {
    t == TABS[0]
  }

  /** `isLastTab`: the submit button replaces Next exactly here. */
  predicate IsLast(t: Tab)
    ensures IsLast(t) <==> Position(t) == |TABS| - 1
  {
    t == TABS[|TABS| - 1]
  }

  /** No step is both first and last, since there is more than one step. */
  lemma FirstIsNotLast(t: Tab)
    ensures !(IsFirst(t) && IsLast(t))
  {
  }

  /** Next is a no-op exactly on the last step, Back exactly on the first. */
  lemma NoOpOnlyAtEnds(t: Tab)
    ensures Next(t) == t <==> IsLast(t)
    ensures Back(t) == t <==> IsFirst(t)
  {
  }

  /** Back undoes Next on every step that has a successor. */
  lemma BackAfterNext(t: Tab)
    requires !IsLast(t)
    ensures Back(Next(t)) == t
  {
  }

  /** Next undoes Back on every step that has a predecessor. */
  lemma NextAfterBack(t: Tab)
    requires !IsFirst(t)
    ensures Next(Back(t)) == t
  {
  }

  /** Pressing Next `n` times. */
  function NextN(t: Tab, n: nat): (r: Tab)
    ensures Position(r) == if Position(t) + n < |TABS| then Position(t) + n else |TABS| - 1
  {
    if n == 0 then t else Next(NextN(t, n - 1))
  }

  /** Pressing Back `n` times. */
  function BackN(t: Tab, n: nat): (r: Tab)
    ensures Position(r) == if Position(t) >= n then Position(t) - n else 0
  {
    if n == 0 then t else Back(BackN(t, n - 1))
  }

  /** Pressing Next once and then `n` more times is pressing it `n + 1` times. */
  lemma NextNShift(t: Tab, n: nat)
    ensures NextN(Next(t), n) == NextN(t, n + 1)
  {
  }

  /** Every step is reached from the initial step by pressing Next as many
      times as its position. */
  lemma EveryTabReachable(t: Tab)
    ensures NextN(InitialTab, Position(t)) == t
  {
  }

  /** Four presses of Next from the initial step reach the last step, where
      the submit button is shown and a further Next changes nothing. */
  lemma FourNextsReachLast()
    ensures IsLast(NextN(InitialTab, |TABS| - 1))
    ensures !IsFirst(NextN(InitialTab, |TABS| - 1))
    ensures Next(NextN(InitialTab, |TABS| - 1)) == NextN(InitialTab, |TABS| - 1)
  {
  }
}

/**
  The event wizard as a whole: the active step together with the form
  record. Each user interaction is one transition applied to completion
  before the next: Next, Back, or a field callback of any sub-form.
  Navigation moves only the cursor; field edits change only the record, so
  values entered on one step are kept when moving between steps.
 */
module EventForm {
  import opened Tabs
  import opened EventFields

  datatype Wizard = Wizard(activeTab: Tab, form: FormData)

  datatype Action = GoNext | GoBack | Edit(event: Event)

  /** The state the wizard is opened in. */
  function Init(): (w: Wizard)
    ensures IsFirst(w.activeTab) && !IsLast(w.activeTab)
    ensures w.form == Initial()
  {
    Wizard(InitialTab, Initial())
  }

  /** One interaction. */
  function Step(w: Wizard, a: Action): (r: Wizard)
    ensures a.GoNext? ==> r.form == w.form && Position(r.activeTab) == if IsLast(w.activeTab) then Position(w.activeTab) else Position(w.activeTab) + 1
    ensures a.GoBack? ==> r.form == w.form && Position(r.activeTab) == if IsFirst(w.activeTab) then 0 else Position(w.activeTab) - 1
    ensures a.Edit? ==> r.activeTab == w.activeTab && AgreeExcept(w.form, r.form, Target(a.event))
    ensures a.Edit? ==> r.form == Apply(w.form, a.event)
  {
    match a
    case GoNext => w.(activeTab := Next(w.activeTab))
    case GoBack => w.(activeTab := Back(w.activeTab))
    case Edit(e) => w.(form := Apply(w.form, e))
  }

  /** A sequence of interactions, applied in order. */
  function Run(w: Wizard, actions: seq<Action>): Wizard
    decreases |actions|
  {
    if |actions| == 0 then w else Run(Step(w, actions[0]), actions[1..])
  }

  predicate IsNavigation(a: Action)
  {
    a.GoNext? || a.GoBack?
  }

  /** Any amount of moving between steps keeps every entered value. */
  lemma {:induction false} NavigationKeepsForm(w: Wizard, actions: seq<Action>)
    requires forall i :: 0 <= i < |actions| ==> IsNavigation(actions[i])
    ensures Run(w, actions).form == w.form
    decreases |actions|
  {
    if |actions| > 0 {
      NavigationKeepsForm(Step(w, actions[0]), actions[1..]);
    }
  }

  /** Any number of field edits keeps the active step. */
  lemma {:induction false} EditsKeepTab(w: Wizard, actions: seq<Action>)
    requires forall i :: 0 <= i < |actions| ==> actions[i].Edit?
    ensures Run(w, actions).activeTab == w.activeTab
    decreases |actions|
  {
    if |actions| > 0 {
      EditsKeepTab(Step(w, actions[0]), actions[1..]);
    }
  }

  /** A run of `n` Next presses moves the cursor as `NextN` does. */
  lemma {:induction false} RunOfNexts(w: Wizard, n: nat)
    ensures Run(w, seq(n, _ => GoNext)) == w.(activeTab := NextN(w.activeTab, n))
    decreases n
  {
    if n > 0 {
      var rest: seq<Action> := seq(n - 1, _ => GoNext);
      assert seq(n, _ => GoNext)[1..] == rest;
      RunOfNexts(Step(w, GoNext), n - 1);
      assert NextN(Next(w.activeTab), n - 1) == NextN(w.activeTab, n) by {
        NextNShift(w.activeTab, n - 1);
      }
    }
  }

  /** From a fresh form: typing a title and pressing Next four times reaches
      the last step, where the submit button is shown and the Back button is
      not hidden; the record then holds the typed title and every other field
      at its default. */
  lemma OrientationScenario()
    ensures
      var w := Run(Init(), [Edit(TextChange(Title, "Orientation")), GoNext, GoNext, GoNext, GoNext]);
      && w.activeTab == Additional
      && IsLast(w.activeTab) && !IsFirst(w.activeTab)
      && w.form.title == "Orientation"
      && AgreeExcept(Initial(), w.form, Text(Title))
  {
  }
}

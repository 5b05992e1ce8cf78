/** The creation page as the object it is: mutable state (`step`,
    `loading`, `formData`) that its event handlers update in place, plus
    the log of its effects: changes of its loading flag, and the requests
    it made of the notification and routing collaborators. Every handler is
    proved against `Wizard.Apply`, and states its effect on each field
    outright as well. */
module Controller {
  import opened Form
  import opened Wizard

  class CreatePage {
    var step: int
    var loading: bool
    var formData: FormData
    /** Notifications, loading changes and navigations issued so far, in order. */
    var effects: seq<Effect>

    /** The page's state as a value. */
    function View(): Snapshot
      reads this
    {
      Snapshot(step, loading, formData, effects)
    }

    predicate Ok()
      reads this
    {
      Wizard.Valid(View())
    }

    /** The page as first rendered: step 1, not loading, the empty form. */
    constructor ()
      ensures Ok()
      ensures View() == Initial
      ensures step == 1 && !loading && formData == Empty && effects == []
    {
      step := 1;
      loading := false;
      formData := Empty;
      effects := [];
    }

    /** The Next button's handler: advance one step unless at the last. */
    method HandleNext()
      requires Ok()
      modifies this
      ensures Ok()
      ensures View() == Apply(old(View()), Next)
      ensures old(step) < TotalSteps ==> step == old(step) + 1
      ensures old(step) == TotalSteps ==> step == old(step)
      ensures loading == old(loading) && formData == old(formData) && effects == old(effects)
    {
      if step < TotalSteps {
        step := step + 1;
      }
    }

    /** The Back button's handler: go back one step unless at the first. */
    method HandleBack()
      requires Ok()
      modifies this
      ensures Ok()
      ensures View() == Apply(old(View()), Back)
      ensures old(step) > 1 ==> step == old(step) - 1
      ensures old(step) == 1 ==> step == old(step)
      ensures loading == old(loading) && formData == old(formData) && effects == old(effects)
    {
      if step > 1 {
        step := step - 1;
      }
    }

    /** The change handler of one text input or select: copy the record
        with key `k` replaced by `v`. */
    method SetField(k: Key, v: string)
      requires Ok()
      modifies this
      ensures Ok()
      ensures View() == Apply(old(View()), Edit(k, v))
      ensures formData.Get(k) == v
      ensures forall j :: j != k ==> formData.Get(j) == old(formData).Get(j)
      ensures formData.image == old(formData).image
      ensures step == old(step) && loading == old(loading) && effects == old(effects)
    {
      formData := formData.Set(k, v);
    }

    /** The photo's "Remove" handler: copy the record with the photo cleared. */
    method HandleRemove()
      requires Ok()
      modifies this
      ensures Ok()
      ensures View() == Apply(old(View()), RemoveImage)
      ensures formData.image == None
      ensures forall k :: formData.Get(k) == old(formData).Get(k)
      ensures step == old(step) && loading == old(loading) && effects == old(effects)
    {
      formData := formData.WithoutImage();
    }

    /** The submit button's handler. It raises `loading`, then either
        notifies success and navigates to the dashboard, or notifies the
        error and stays; in both cases it lowers `loading` at the end. The
        handler itself checks neither the step nor `loading`: the button
        that calls it is shown only at the last step and disabled while
        loading. Returns where the page navigated, if anywhere. */
    method HandleSubmit(outcome: Outcome) returns (target: Option<string>)
      requires Ok()
      modifies this
      ensures Ok()
      ensures View() == Apply(old(View()), Submit(outcome))
      ensures target == (if outcome == Succeeded then Some(Dashboard) else None)
      ensures step == old(step) && formData == old(formData) && !loading
      ensures outcome == Succeeded ==>
        effects == old(effects) + [LoadingSet(true), SuccessToast, Navigate(Dashboard), LoadingSet(false)]
      ensures outcome == Failed ==>
        effects == old(effects) + [LoadingSet(true), ErrorToast, LoadingSet(false)]
    {
      loading := true;
      effects := effects + [LoadingSet(true)];
      if outcome == Succeeded {
        effects := effects + [SuccessToast];
        effects := effects + [Navigate(Dashboard)];
        target := Some(Dashboard);
      } else {
        effects := effects + [ErrorToast];
        target := None;
      }
      loading := false;
      effects := effects + [LoadingSet(false)];
      assert effects == old(effects) + SubmitEffects(outcome);
    }
  }

  /** Driving the page through the flow: from a fresh page, three presses
      of Next (the last one at the last step, so it does nothing) and a
      successful submission leave it at the last step, having issued exactly
      the effects of one successful submission. */
  method SuccessfulFlow() returns (page: CreatePage, target: Option<string>)
    ensures page.step == TotalSteps && !page.loading
    ensures target == Some(Dashboard)
    ensures page.effects == SubmitEffects(Succeeded)
  {
    page := new CreatePage();
    page.HandleNext();
    page.HandleNext();
    page.HandleNext();
    target := page.HandleSubmit(Succeeded);
  }

  /** A failed submission at the last step keeps the page where it was: same
      step, same form, one error notification, no navigation. */
  method FailedSubmissionStays(name: string) returns (page: CreatePage, target: Option<string>)
    ensures page.step == TotalSteps && !page.loading
    ensures page.formData == Empty.Set(ChildName, name)
    ensures target == None
    ensures page.effects == SubmitEffects(Failed)
    ensures Count(page.effects, ErrorToast) == 1
    ensures Count(page.effects, SuccessToast) == 0 && Count(page.effects, Navigate(Dashboard)) == 0
  {
    page := new CreatePage();
    page.SetField(ChildName, name);
    page.HandleNext();
    page.HandleNext();
    target := page.HandleSubmit(Failed);
  }
}

/** The creation wizard of the story page, as a pure state machine.

    A `Snapshot` is everything the page holds between two user actions: the
    step index, the loading flag, the form record and the log of effects the
    page has produced, in order: its own changes of the loading flag, and the
    notifications and navigations it asked of its collaborators. `Apply`
    gives the snapshot after one handler runs to completion; `Run` folds it
    over a sequence of actions. The class in module `Controller` is proved
    against `Apply`; the lemmas here say what the handlers promise, alone
    and in sequence. */
module Wizard {
  import opened Form

  /** The number of steps of the flow. */
  const TotalSteps: int := 3

  /** The route the page navigates to after a successful submission. */
  const Dashboard: string := "/dashboard"

  /** What the (not yet written) generation and storage work reports. */
  datatype Outcome = Succeeded | Failed

  datatype ToastVariant = Plain | Destructive

  /** An observable effect of a handler: a change of the page's own loading
      flag, or a request to the notification or routing collaborator. */
  datatype Effect =
    | LoadingSet(on: bool)
    | Toast(variant: ToastVariant, title: string, description: string)
    | Navigate(route: string)

  const SuccessToast: Effect := Toast(Plain, "Success", "Your story is being generated...")
  const ErrorToast: Effect := Toast(Destructive, "Error", "Something went wrong. Please try again.")

  datatype Snapshot = Snapshot(step: int, loading: bool, formData: FormData, effects: seq<Effect>)

  /** The state the page is created with. */
  const Initial: Snapshot := Snapshot(1, false, Empty, [])

  /** A user action, each bound to one handler of the page. */
  datatype Action =
    | Next
    | Back
    | Edit(key: Key, value: string)
    | RemoveImage
    | Submit(outcome: Outcome)

  /** The invariant between two actions: the step is one of the flow's
      steps, and no submission is under way (each handler runs to
      completion before the next action). */
  predicate Valid(s: Snapshot)
  {
    1 <= s.step <= TotalSteps && !s.loading
  }

  /** The effects one submission issues: loading on, then either the success
      notification and the navigation, or the error notification, then
      loading off. */
  function SubmitEffects(o: Outcome): (r: seq<Effect>)
    ensures |r| >= 3 && r[0] == LoadingSet(true) && r[|r| - 1] == LoadingSet(false)
    ensures (Navigate(Dashboard) in r) <==> o == Succeeded
    ensures (SuccessToast in r) <==> o == Succeeded
    ensures (ErrorToast in r) <==> o == Failed
    ensures forall e :: e in r && e.Navigate? ==> e == Navigate(Dashboard)
    ensures forall e :: e in r && e.Toast? ==>
      e == (if o == Succeeded then SuccessToast else ErrorToast)
    ensures Count(r, SuccessToast) == (if o == Succeeded then 1 else 0)
    ensures Count(r, ErrorToast) == (if o == Failed then 1 else 0)
    ensures Count(r, Navigate(Dashboard)) == (if o == Succeeded then 1 else 0)
  {
    match o
    case Succeeded => [LoadingSet(true), SuccessToast, Navigate(Dashboard), LoadingSet(false)]
    case Failed => [LoadingSet(true), ErrorToast, LoadingSet(false)]
  }

  /** The snapshot after one action's handler has run. Each handler keeps
      the invariant and touches only its own part of the state: only Next
      and Back move the step, by one; only edits and Remove change the
      record; only a submission adds effects, and only its own. */
  function Apply(s: Snapshot, a: Action): (r: Snapshot)
    ensures Valid(s) ==> Valid(r)
    ensures r.step != s.step ==>
      (a == Next && r.step == s.step + 1) || (a == Back && r.step == s.step - 1)
    ensures r.formData != s.formData ==> a.Edit? || a == RemoveImage
    ensures a.Submit? ==> r.effects == s.effects + SubmitEffects(a.outcome) && !r.loading
    ensures !a.Submit? ==> r.effects == s.effects && r.loading == s.loading
  {
    match a
    case Next => if s.step < TotalSteps then s.(step := s.step + 1) else s
    case Back => if s.step > 1 then s.(step := s.step - 1) else s
    case Edit(k, v) => s.(formData := s.formData.Set(k, v))
    case RemoveImage => s.(formData := s.formData.WithoutImage())
    case Submit(o) => s.(loading := false, effects := s.effects + SubmitEffects(o))
  }

  /** The snapshot after a sequence of actions, each run to completion. */
  function Run(s: Snapshot, acts: seq<Action>): Snapshot
    decreases |acts|
  {
    if acts == [] then s else Run(Apply(s, acts[0]), acts[1..])
  }

  // ---------------------------------------------------------------------
  // Progress

  /** The value of the progress bar: the step as a percentage of the flow. */
  function Progress(step: int): (r: real)
    ensures r * (TotalSteps as real) == (step as real) * 100.0
    ensures 1 <= step <= TotalSteps ==> 0.0 < r <= 100.0
    ensures r == 100.0 <==> step == TotalSteps
  {
    step as real / TotalSteps as real * 100.0
  }

  /** The progress bar only moves forward as the step grows. */
  lemma ProgressStrictlyIncreasing(a: int, b: int)
    requires a < b
    ensures Progress(a) < Progress(b)
  {
  }

  // ---------------------------------------------------------------------
  // What the page shows at each step

  /** The three form panels, one per step. */
  datatype Panel = ChildDetails | StoryPreferences | CharacterCreation

  function PanelStep(p: Panel): int
  {
    match p
    case ChildDetails => 1
    case StoryPreferences => 2
    case CharacterCreation => 3
  }

  /** The panels rendered at `step`: each is guarded by its own equality test. */
  function ShownPanels(step: int): (r: set<Panel>)
    ensures forall p :: p in r <==> PanelStep(p) == step
    ensures 1 <= step <= TotalSteps ==> |r| == 1
    ensures !(1 <= step <= TotalSteps) ==> r == {}
  {
    var one := if step == 1 then {ChildDetails} else {};
    var two := if step == 2 then {StoryPreferences} else {};
    var three := if step == 3 then {CharacterCreation} else {};
    one + two + three
  }

  /** The Back button is rendered at every step and disabled at the first:
      on a valid snapshot, exactly where the Back handler would do nothing. */
  predicate BackDisabled(s: Snapshot)
    ensures Valid(s) ==> (BackDisabled(s) <==> Apply(s, Back) == s)
  {
    s.step == 1
  }

  /** The Next button is rendered before the last step: on a valid snapshot,
      exactly where the Next handler would advance. */
  predicate NextShown(s: Snapshot)
    ensures Valid(s) ==> (NextShown(s) <==> Apply(s, Next) != s)
  {
    s.step < TotalSteps
  }

  /** The submit button takes the Next button's place: on a valid snapshot it
      is rendered exactly at the last step, where Next would do nothing. */
  predicate SubmitShown(s: Snapshot)
    ensures Valid(s) ==> (SubmitShown(s) <==> s.step == TotalSteps)
    ensures Valid(s) ==> (SubmitShown(s) <==> Apply(s, Next) == s)
  {
    !NextShown(s)
  }

  /** The submit button is disabled while a submission is under way. Since
      every handler here runs to completion, `loading` is false in every
      valid snapshot, so on those the button is enabled wherever it is
      shown; the loading clause never takes effect in this model. */
  predicate SubmitEnabled(s: Snapshot)
    ensures s.loading ==> !SubmitEnabled(s)
    ensures Valid(s) ==> (SubmitEnabled(s) <==> s.step == TotalSteps)
  {
    SubmitShown(s) && !s.loading
  }

  /** The caption naming the photo, as the page shows it. The caption sits
      inside the third panel, so it appears only at the last step, and
      there only while a photo is held. */
  function Caption(s: Snapshot): (r: Option<string>)
    ensures r.Some? <==> CharacterCreation in ShownPanels(s.step) && s.formData.image.Some?
    ensures r.Some? ==> r == s.formData.SelectedCaption()
  {
    if s.step == TotalSteps then s.formData.SelectedCaption() else None
  }

  /** The "Remove" button of the photo field. Like the caption, it sits in
      the third panel and needs a photo, so the two are shown together. */
  predicate RemoveShown(s: Snapshot)
    ensures RemoveShown(s) <==> CharacterCreation in ShownPanels(s.step) && s.formData.image.Some?
    ensures RemoveShown(s) <==> Caption(s).Some?
  {
    s.step == TotalSteps && s.formData.image.Some?
  }

  /** How each handler moves the caption on a valid snapshot. Remove hides
      it; Back always leaves it hidden (from the last step it hides it with
      its panel; below that it was hidden already); Next into the last step
      reveals whatever photo is held, and any other Next leaves it as it
      was; edits and submissions leave it as it was. */
  lemma CaptionFollowsHandlers(s: Snapshot, a: Action)
    requires Valid(s)
    ensures a == RemoveImage ==> Caption(Apply(s, a)) == None
    ensures a == Back ==> Caption(Apply(s, a)) == None
    ensures a == Next && s.step == TotalSteps - 1 ==>
      Caption(Apply(s, a)) == s.formData.SelectedCaption()
    ensures a.Edit? || a.Submit? ==> Caption(Apply(s, a)) == Caption(s)
    ensures a == Next && s.step != TotalSteps - 1 ==> Caption(Apply(s, a)) == Caption(s)
  {
  }

  /** The page as first rendered: the first panel, Back disabled, Next
      offered, no photo, and a third of the progress bar. */
  lemma InitialScreen()
    ensures Valid(Initial)
    ensures ShownPanels(Initial.step) == {ChildDetails}
    ensures BackDisabled(Initial) && NextShown(Initial) && !SubmitShown(Initial)
    ensures !RemoveShown(Initial) && Caption(Initial) == None
    ensures Progress(Initial.step) * 3.0 == 100.0
  {
  }

  // ---------------------------------------------------------------------
  // One action at a time

  /** Next moves exactly one step forward, and does nothing at the last step. */
  lemma NextSpec(s: Snapshot)
    ensures s.step < TotalSteps ==> Apply(s, Next) == s.(step := s.step + 1)
    ensures s.step >= TotalSteps ==> Apply(s, Next) == s
  {
  }

  /** Back moves exactly one step backward, and does nothing at the first step. */
  lemma BackSpec(s: Snapshot)
    ensures s.step > 1 ==> Apply(s, Back) == s.(step := s.step - 1)
    ensures s.step <= 1 ==> Apply(s, Back) == s
  {
  }

  /** Next then Back restores the snapshot, below the last step. */
  lemma NextThenBack(s: Snapshot)
    requires 1 <= s.step < TotalSteps
    ensures Run(s, [Next, Back]) == s
  {
  }

  /** Back then Next restores the snapshot, above the first step. */
  lemma BackThenNext(s: Snapshot)
    requires 1 < s.step <= TotalSteps
    ensures Run(s, [Back, Next]) == s
  {
  }

  /** An edit changes one key of the form record and nothing else of the snapshot. */
  lemma EditSpec(s: Snapshot, k: Key, v: string)
    ensures Apply(s, Edit(k, v)).formData.Get(k) == v
    ensures forall j :: j != k ==> Apply(s, Edit(k, v)).formData.Get(j) == s.formData.Get(j)
    ensures Apply(s, Edit(k, v)).formData.image == s.formData.image
    ensures RemoveShown(Apply(s, Edit(k, v))) == RemoveShown(s)
    ensures Apply(s, Edit(k, v)).(formData := s.formData) == s
  {
  }

  /** Removing the photo clears only the photo. */
  lemma RemoveImageSpec(s: Snapshot)
    ensures Apply(s, RemoveImage).formData.image == None
    ensures !RemoveShown(Apply(s, RemoveImage))
    ensures forall k :: Apply(s, RemoveImage).formData.Get(k) == s.formData.Get(k)
    ensures Apply(s, RemoveImage).(formData := s.formData) == s
  {
  }

  /** A submission leaves the step and the record alone, clears loading,
      issues exactly one notification, and navigates exactly when it succeeds.
      The three counts are those of `SubmitEffects`' own contract, restated
      here so that this lemma reads as the whole promise of one submission. */
  lemma SubmitSpec(s: Snapshot, o: Outcome)
    ensures Apply(s, Submit(o)).step == s.step
    ensures Apply(s, Submit(o)).formData == s.formData
    ensures !Apply(s, Submit(o)).loading
    ensures Apply(s, Submit(o)).effects == s.effects + SubmitEffects(o)
    ensures o == Succeeded ==> Count(SubmitEffects(o), SuccessToast) == 1 && Count(SubmitEffects(o), ErrorToast) == 0
    ensures o == Failed ==> Count(SubmitEffects(o), ErrorToast) == 1 && Count(SubmitEffects(o), SuccessToast) == 0
    ensures Count(SubmitEffects(o), Navigate(Dashboard)) == (if o == Succeeded then 1 else 0)
  {
  }

  // ---------------------------------------------------------------------
  // Sequences of actions

  /** How many times `e` occurs in a log. */
  function Count(log: seq<Effect>, e: Effect): nat
  {
    multiset(log)[e]
  }

  /** The number of successful submissions among `acts`. */
  function Successes(acts: seq<Action>): nat
  {
    if acts == [] then 0
    else (if acts[0] == Submit(Succeeded) then 1 else 0) + Successes(acts[1..])
  }

  /** The number of failed submissions among `acts`. */
  function Failures(acts: seq<Action>): nat
  {
    if acts == [] then 0
    else (if acts[0] == Submit(Failed) then 1 else 0) + Failures(acts[1..])
  }

  /** `k` copies of one action. */
  function Repeat(a: Action, k: nat): (r: seq<Action>)
    ensures |r| == k && forall i :: 0 <= i < k ==> r[i] == a
  {
    if k == 0 then [] else [a] + Repeat(a, k - 1)
  }

  function Min(a: int, b: int): int { if a <= b then a else b }
  function Max(a: int, b: int): int { if a >= b then a else b }

  /** Every action keeps the invariant: whatever the user does, the step
      stays within the flow and no submission is left under way. */
  lemma {:induction false} RunPreservesValid(s: Snapshot, acts: seq<Action>)
    requires Valid(s)
    ensures Valid(Run(s, acts))
    decreases |acts|
  {
    if acts != [] {
      RunPreservesValid(Apply(s, acts[0]), acts[1..]);
    }
  }

  /** Every state reachable from the initial one satisfies the invariant. */
  lemma ReachableIsValid(acts: seq<Action>)
    ensures Valid(Run(Initial, acts))
  {
    RunPreservesValid(Initial, acts);
  }

  /** `k` presses of Next advance by `k` steps, stopping at the last one. */
  lemma {:induction false} RepeatedNext(s: Snapshot, k: nat)
    requires s.step <= TotalSteps
    ensures Run(s, Repeat(Next, k)) == s.(step := Min(s.step + k, TotalSteps))
    decreases k
  {
    if k > 0 {
      var r := Repeat(Next, k);
      assert r[0] == Next && r[1..] == Repeat(Next, k - 1);
      RepeatedNext(Apply(s, Next), k - 1);
    }
  }

  /** `k` presses of Back go back by `k` steps, stopping at the first one. */
  lemma {:induction false} RepeatedBack(s: Snapshot, k: nat)
    requires s.step >= 1
    ensures Run(s, Repeat(Back, k)) == s.(step := Max(s.step - k, 1))
    decreases k
  {
    if k > 0 {
      var r := Repeat(Back, k);
      assert r[0] == Back && r[1..] == Repeat(Back, k - 1);
      RepeatedBack(Apply(s, Back), k - 1);
    }
  }

  /** Over any sequence of actions, the page navigates to the dashboard and
      shows the success notification once per successful submission, and
      shows the error notification once per failed one. */
  lemma {:induction false} EffectsCountSubmissions(s: Snapshot, acts: seq<Action>)
    ensures Count(Run(s, acts).effects, Navigate(Dashboard)) == Count(s.effects, Navigate(Dashboard)) + Successes(acts)
    ensures Count(Run(s, acts).effects, SuccessToast) == Count(s.effects, SuccessToast) + Successes(acts)
    ensures Count(Run(s, acts).effects, ErrorToast) == Count(s.effects, ErrorToast) + Failures(acts)
    decreases |acts|
  {
    if acts != [] {
      var t := Apply(s, acts[0]);
      EffectsCountSubmissions(t, acts[1..]);
      match acts[0]
      case Submit(o) =>
        assert t.effects == s.effects + SubmitEffects(o);
      case _ =>
        assert t.effects == s.effects;
    }
  }

  /** From the first step, two presses of Next reach the last step with a full progress bar. */
  lemma TwoNextsFinish()
    ensures Run(Initial, [Next, Next]).step == TotalSteps
    ensures Progress(Run(Initial, [Next, Next]).step) == 100.0
  {
  }
}

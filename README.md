# Story creation wizard — a Dafny model

This project models the controller of the three-step "Create Your Story" page
(`app/create/page.tsx`) of a children's-story web application. The page keeps a
step index (1 to 3), a `loading` flag and a flat form record (child's name,
age, gender, interests, story theme, story language, character description and
an optional photo). Its handlers move the step forward and back, replace one
field of the record at a time, clear the photo, and submit. A submission shows
a success notification and navigates to `/dashboard`, or shows an error
notification and stays on the page. A progress bar and the visibility and
enablement of the panels and buttons are derived from the state.

Layout:

- `form.dfy`, module `Form`: the form record, keyed access, and the
  one-key-replacing copy that every field handler performs, with its algebra
  (overwrite, commute, no-op, extensionality).
- `wizard.dfy`, module `Wizard`: the page's state as a value (`Snapshot`), the
  effect of each handler (`Apply`) and of a sequence of them (`Run`), the
  progress value, what is shown and enabled at each step, and the lemmas about
  them.
- `controller.dfy`, module `Controller`: class `CreatePage`, whose fields the
  handlers update in place, each handler proved against `Wizard.Apply`.

The notification and routing hooks are collaborators outside the page. They
are modelled as an ordered log of effects on the page (`LoadingSet`, `Toast`,
`Navigate`); `HandleSubmit` also returns the route it navigated to. Whether the
submission work succeeds is an input (`Outcome`).

Facts about the code that shape the model:

- The page has no submission status; it has only the boolean `loading`.
- `handleSubmit` checks neither the step nor `loading`. The gate is the button,
  which is rendered only at the last step and disabled while loading. The
  handler is modelled without a guard, and the button rules are separate
  predicates.
- Gender, theme and language are stored as arbitrary strings, with no
  validation.
- Next and Back at the ends of the flow silently do nothing.

## Model

| member | source | states |
|---|---|---|
| `Form.FormData.Set` | app/create/page.tsx:98-100 | the copied record holds `v` under the edited key, every other key keeps its value, and the photo is untouched (the same spread copy is used at lines 109-111, 118-120, 146-148, 155-157, 174-176 and 204-206) |
| `Form.FormData.WithoutImage` | app/create/page.tsx:219 | "Remove" leaves no photo and leaves every text key as it was |
| `Form.FormData.SelectedCaption` | app/create/page.tsx:225-228 | the record-level test inside the third panel: the caption has text exactly when a photo is held, and the text is the photo's name (whether the page shows it at all is `Wizard.Caption`) |
| `Form.SetDetermined` | app/create/page.tsx:98-100 | any record that holds the new value at the edited key, agrees elsewhere and keeps the photo is the edited copy: the contract of `Set` fixes the copy completely |
| `Form.EmptyDefaults` | app/create/page.tsx:29-38 | the initial record has every text key empty except `language`, which is `"en"`, and no photo |
| `Form.Extensionality` | app/create/page.tsx:29-38 | two records equal on all seven keys and on the photo are the same record, so the keys and the photo are all of its state |
| `Form.SetIsNoChangeIff` | app/create/page.tsx:98-100 | an edit leaves the record unchanged if and only if the key already held the new value |
| `Form.SetDiffersOnlyAt` | app/create/page.tsx:98-100 | a key whose value differs after an edit is the edited key, and the value really changed |
| `Form.SetOverwrites` | app/create/page.tsx:98-100 | editing the same key twice is the same as the last edit alone |
| `Form.SetCommutes` | app/create/page.tsx:98-100 | edits of two different keys give the same record in either order |
| `Form.SetSameValue` | app/create/page.tsx:98-100 | storing the value a key already holds changes nothing |
| `Form.WithoutImageCommutes` | app/create/page.tsx:219 | removing the photo is idempotent and independent of text edits |
| `Wizard.SubmitEffects` | app/create/page.tsx:55-75 | a submission raises loading first and lowers it last. It navigates, and only to `/dashboard`, once on success and never on failure. It shows the success notification once on success and the error notification once on failure. It shows no other notification |
| `Wizard.Apply` | app/create/page.tsx:43-75 | one handler run to completion (Next 43-47, Back 49-53, submit 55-75, the field edits 98-206, Remove 219). It keeps step in 1..3 with loading off. Only Next and Back move the step, each by one in its own direction. Only edits and Remove change the record. Only a submission adds effects, exactly its own, and it ends with loading off |
| `Wizard.Progress` | app/create/page.tsx:40-41 | progress times the step count equals step times 100; it lies in (0, 100] for a valid step and is 100 exactly at the last step |
| `Wizard.ProgressStrictlyIncreasing` | app/create/page.tsx:41 | a later step always shows more progress |
| `Wizard.ShownPanels` | app/create/page.tsx:89-233 | a panel is shown exactly at its own step, so a valid step shows exactly one panel and any other step shows none |
| `Wizard.BackDisabled` | app/create/page.tsx:239 | on a valid state, Back is disabled exactly where the Back handler (50-52) would do nothing |
| `Wizard.NextShown` | app/create/page.tsx:244-248 | on a valid state, Next is offered exactly where the Next handler (44-46) would advance |
| `Wizard.SubmitShown` | app/create/page.tsx:244-254 | on a valid state, the submit button is offered exactly at the last step, which is exactly where Next would do nothing, so exactly one of the two is offered |
| `Wizard.SubmitEnabled` | app/create/page.tsx:250 | the submit button is never enabled while loading; on a valid state it is enabled exactly at the last step |
| `Wizard.Caption` | app/create/page.tsx:194-228 | the caption is shown exactly when the third panel is shown (194) and a photo is held (225), and then it names the photo |
| `Wizard.RemoveShown` | app/create/page.tsx:194-223 | the Remove button is shown exactly when the third panel is shown (194) and a photo is held (216), which is exactly when the caption is shown |
| `Wizard.CaptionFollowsHandlers` | app/create/page.tsx:43-228 | on a valid state: Remove (219) hides the caption. Back always leaves it hidden: from step 3 it hides it with its panel, and below step 3 it was hidden already. Next from step 2 shows the caption of any photo held. Every other Next leaves it as it was. Edits and submissions leave it as it was |
| `Wizard.InitialScreen` | app/create/page.tsx:27-41 | the initial state is valid and shows the first panel, Back disabled, Next offered, no submit button, no Remove button or caption, and progress of one third |
| `Wizard.NextSpec` | app/create/page.tsx:43-47 | Next increases the step by exactly one below the last step and otherwise changes nothing |
| `Wizard.BackSpec` | app/create/page.tsx:49-53 | Back decreases the step by exactly one above the first step and otherwise changes nothing |
| `Wizard.NextThenBack` | app/create/page.tsx:43-53 | below the last step, Next then Back restores the whole state |
| `Wizard.BackThenNext` | app/create/page.tsx:43-53 | above the first step, Back then Next restores the whole state |
| `Wizard.EditSpec` | app/create/page.tsx:98-100 | a field edit changes the edited key and no other key. It leaves the photo and the Remove button as they were. It leaves the step, loading flag and effects alone |
| `Wizard.RemoveImageSpec` | app/create/page.tsx:216-219 | "Remove" clears only the photo, which hides the "Remove" button (line 216), and leaves the rest of the state alone |
| `Wizard.SubmitSpec` | app/create/page.tsx:55-75 | a submission keeps the step and the record and ends with loading off. It shows exactly one notification, success or error according to the outcome. It navigates to the dashboard once on success and never on failure |
| `Wizard.RunPreservesValid` | app/create/page.tsx:27-75 | from a state with step in 1..3 and loading off, every sequence of actions ends in such a state |
| `Wizard.ReachableIsValid` | app/create/page.tsx:27-75 | every state reachable from the initial one has step in 1..3 and loading off |
| `Wizard.RepeatedNext` | app/create/page.tsx:43-47 | k presses of Next advance to min(step + k, 3) and change nothing else |
| `Wizard.RepeatedBack` | app/create/page.tsx:49-53 | k presses of Back go back to max(step - k, 1) and change nothing else |
| `Wizard.EffectsCountSubmissions` | app/create/page.tsx:55-75 | over any sequence of actions, the dashboard navigations and success notifications each equal the number of successful submissions, and the error notifications equal the number of failed ones |
| `Wizard.TwoNextsFinish` | app/create/page.tsx:40-47 | two presses of Next from the start reach step 3 with progress 100 |
| `Controller.CreatePage.constructor` | app/create/page.tsx:27-40 | the page starts at step 1, not loading, with the empty form record and no effects |
| `Controller.CreatePage.HandleNext` | app/create/page.tsx:43-47 | the step grows by one below the last step and stays at the last. Nothing else changes. This is `Apply` of Next |
| `Controller.CreatePage.HandleBack` | app/create/page.tsx:49-53 | the step drops by one above the first step and stays at the first. Nothing else changes. This is `Apply` of Back |
| `Controller.CreatePage.SetField` | app/create/page.tsx:98-100 | the record is replaced by a copy differing only at the edited key; step, loading and effects unchanged |
| `Controller.CreatePage.HandleRemove` | app/create/page.tsx:219 | the record loses its photo and keeps every text key; nothing else changes |
| `Controller.CreatePage.HandleSubmit` | app/create/page.tsx:55-75 | the effect log grows by loading-on, success notification, navigation, loading-off on success, or by loading-on, error notification, loading-off on failure. Step and record are unchanged, loading ends off, and the returned target is `/dashboard` exactly on success |
| `Controller.SuccessfulFlow` | app/create/page.tsx:43-75 | a fresh page driven by three Nexts and a successful submit ends at step 3, having issued exactly one submission's effects and navigated to the dashboard |
| `Controller.FailedSubmissionStays` | app/create/page.tsx:55-75 | a failed submit at the last step keeps the step and the entered form. It shows one error notification, no success notification and no navigation |

## Left out

- Markup, styling, icons and layout of every page. Only the conditions that decide what the create page shows are modelled. The dashboard (`app/dashboard/page.tsx`), the landing page (`app/page.tsx`), the header's menu toggle and the footer are not part of this model.
- The authentication, toast and router hooks are foreign calls. The toast and the router are an effect log and a returned route. The current user is read but never used by this page, so it is omitted.
- The story generation, image generation and storage steps are placeholders with no behaviour. Their success or failure is the `Outcome` parameter of `HandleSubmit`. A failure is taken to happen before the success notification, where those steps would run. A failure thrown by the notification or the router themselves is not modelled.
- Asynchrony, and React's deferred state updates, are not modelled. Each handler runs to completion as one step, so `loading` is never observed true between actions. As a result, the "disabled while loading" rule and concurrent submissions cannot arise in the model.
- The "Choose Photo" button does nothing. So no photo is ever selected, and the model has no photo-selection operation. The photo is kept only as an optional value, of which only the name is read.
- The progress value is an exact `real`. JavaScript floating-point rounding of `step / 3 * 100` is not modelled.
- After a successful submission the page navigates away. The model keeps the object and its state, and records the navigation in the log.

# Event creation wizard — Dafny model

A model of the state logic of the `EventForm` component: a five-step wizard
(details, date & time, location, participation, additional information)
that holds one flat form record for a new event. The model covers

- the fixed ordered step list, the Next and Back transitions with their end
  guards, and the first/last-step predicates that decide whether the Back
  button is shown and whether the last button submits (module `Tabs`);
- the initial form record and every field callback the sub-forms are given:
  single-field replacement of the text fields and the location type, the
  nested gender-flag update, and append / remove-by-position on the
  objectives and attachments lists (module `EventFields`);
- removal by position exactly as the component writes it, a filter that keeps
  every element whose position differs from the index (module `IndexedSeq`);
- the wizard as a whole: active step plus record, one transition per user
  interaction, runs of interactions, and the end-to-end scenario of typing a
  title and pressing Next four times (module `EventForm`).

Attachments are file handles the component never looks into; they are of
an opaque type `EventFields.File`. Each callback is modelled as one
sequential transition of the record.

## Model

| member | source | states |
|---|---|---|
| `Tabs.Position` | src/components/supervisor/EventForm.tsx:12 | the step ordering: each step's position is below five and the step list holds that step at that position |
| `Tabs.IndexOf` | src/components/supervisor/EventForm.tsx:49 | `indexOf` on a list: -1 exactly when the value is absent, otherwise a position holding the value with no earlier one holding it |
| `Tabs.CurrentIndex` | src/components/supervisor/EventForm.tsx:49 | looking the active step up in the step list always succeeds and yields the step's position |
| `Tabs.Next` | src/components/supervisor/EventForm.tsx:48-53 | Next moves from position i to i+1 when i < 4 and leaves the last step unchanged |
| `Tabs.Back` | src/components/supervisor/EventForm.tsx:55-60 | Back moves from position i to i-1 when i > 0 and leaves the first step unchanged |
| `Tabs.IsFirst` | src/components/supervisor/EventForm.tsx:63 | the first-step predicate holds exactly at position 0 |
| `Tabs.IsLast` | src/components/supervisor/EventForm.tsx:62 | the last-step predicate holds exactly at position 4 |
| `Tabs.FirstIsNotLast` | src/components/supervisor/EventForm.tsx:62-63 | no step is both first and last |
| `Tabs.NoOpOnlyAtEnds` | src/components/supervisor/EventForm.tsx:48-60 | Next changes nothing exactly on the last step; Back changes nothing exactly on the first |
| `Tabs.BackAfterNext` | src/components/supervisor/EventForm.tsx:48-60 | from every step but the last, Next then Back returns to the same step |
| `Tabs.NextAfterBack` | src/components/supervisor/EventForm.tsx:48-60 | from every step but the first, Back then Next returns to the same step |
| `Tabs.NextN` | src/components/supervisor/EventForm.tsx:48-53 | n presses of Next advance the position by n, saturating at the last step |
| `Tabs.BackN` | src/components/supervisor/EventForm.tsx:55-60 | n presses of Back lower the position by n, saturating at the first step |
| `Tabs.NextNShift` | src/components/supervisor/EventForm.tsx:48-53 | one press followed by n presses equals n+1 presses |
| `Tabs.EveryTabReachable` | src/components/supervisor/EventForm.tsx:12-16 | every step is reached from the initial step by as many Next presses as its position |
| `Tabs.FourNextsReachLast` | src/components/supervisor/EventForm.tsx:12-16 | four Next presses from the initial step reach the last step, which is not the first, and a fifth press changes nothing |
| `IndexedSeq.FilterOutIndex` | src/components/supervisor/EventForm.tsx:149 | filtering out position k: for 0 <= k < length the result is the list without element k, one shorter, with the order of the rest kept; for any other k, negative included, the list is unchanged |
| `IndexedSeq.FilterOutIndexMultiset` | src/components/supervisor/EventForm.tsx:161 | an in-range removal takes out exactly one occurrence of the element at k and keeps all other elements |
| `IndexedSeq.RemoveAppended` | src/components/supervisor/EventForm.tsx:143-151 | removing the position of the element just appended gives back the list before the append |
| `IndexedSeq.RemoveCommutesWithAppend` | src/components/supervisor/EventForm.tsx:155-163 | removing an old element after appending a batch equals removing it first and then appending the batch |
| `EventFields.AgreeEverywhere` | src/components/supervisor/EventForm.tsx:17-40 | two records that agree on every text field, the location type, the gender flags and both lists are equal |
| `EventFields.Initial` | src/components/supervisor/EventForm.tsx:17-40 | the initial record: every text field empty except participation type "yes", location type in-campus, both gender flags off, no objectives, no attachments |
| `EventFields.SetText` | src/components/supervisor/EventForm.tsx:90-108 | a text-field callback (title, description, category, staff, presenter, dates, times, duration; likewise hall, participants, participation type, audience and notes at lines 117, 127-129 and 167) sets its field to the given value and leaves every other field, the lists and the gender flags included, unchanged |
| `EventFields.SetTextDetermined` | src/components/supervisor/EventForm.tsx:90-108 | a text-field edit is determined by its effect: any record holding the new value in that field and agreeing with the old record on every other field is the edited record |
| `EventFields.SetTextLastWins` | src/components/supervisor/EventForm.tsx:90-94 | of two edits of the same text field only the later one is visible |
| `EventFields.SetTextCommutes` | src/components/supervisor/EventForm.tsx:90-108 | edits of two different text fields give the same record in either order |
| `EventFields.SetTextSameValue` | src/components/supervisor/EventForm.tsx:90-108 | writing back a text field's current value changes nothing |
| `EventFields.SetLocationType` | src/components/supervisor/EventForm.tsx:116 | the location-type callback sets the location type and nothing else |
| `EventFields.SetGender` | src/components/supervisor/EventForm.tsx:130-135 | the gender callback sets the named flag, keeps the other flag, and changes no other field |
| `EventFields.AddObjective` | src/components/supervisor/EventForm.tsx:143-145 | adding an objective keeps the old objectives as a prefix and puts the new one last; nothing else changes |
| `EventFields.RemoveObjective` | src/components/supervisor/EventForm.tsx:146-151 | removing objective k drops exactly that objective when k is in range and leaves the record unchanged otherwise; nothing else changes |
| `EventFields.AddAttachments` | src/components/supervisor/EventForm.tsx:155-157 | adding a batch keeps the old attachments as a prefix and the batch, in its order, as the suffix; nothing else changes |
| `EventFields.RemoveAttachment` | src/components/supervisor/EventForm.tsx:158-163 | removing attachment k drops exactly that attachment when k is in range and leaves the record unchanged otherwise; nothing else changes |
| `EventFields.RemoveAddedObjective` | src/components/supervisor/EventForm.tsx:143-151 | removing the objective just added restores the record |
| `EventFields.Apply` | src/components/supervisor/EventForm.tsx:90-167 | whatever callback fires, no field other than the one it targets changes, and the target takes the event's effect: a text field or the location type gets the new value, the named gender flag gets the value while the other keeps its own, an objective is appended last, a batch of attachments is appended in order, and a removal drops exactly the element at an in-range index and leaves the record unchanged for any other index |
| `EventForm.Init` | src/components/supervisor/EventForm.tsx:16-40 | the wizard opens on the first step, which is not the last, with the initial record |
| `EventForm.Step` | src/components/supervisor/EventForm.tsx:48-60 | Next and Back move only the cursor, as far as the end guards allow, and keep the record; a field edit keeps the active step and updates the record exactly as its callback does |
| `EventForm.NavigationKeepsForm` | src/components/supervisor/EventForm.tsx:48-60 | any sequence of Next and Back presses leaves every entered value in place |
| `EventForm.EditsKeepTab` | src/components/supervisor/EventForm.tsx:90-167 | any sequence of field edits leaves the active step in place |
| `EventForm.RunOfNexts` | src/components/supervisor/EventForm.tsx:48-53 | n Next presses in a run move the cursor as n-fold Next and keep the record |
| `EventForm.OrientationScenario` | src/components/supervisor/EventForm.tsx:16-63 | from a fresh form, setting the title and pressing Next four times reaches the last step (submit shown, Back shown) with the title set and every other field at its default |

## Left out

- Rendering: the tab strip, the step panels, the buttons and their styling. Only the two predicates that decide which buttons appear are modelled.
- The sub-form components (basic details, date & time, location, participation, objectives, attachments, notes). They are not part of this model; their callbacks are the inputs of `EventFields.Apply`.
- `handleSubmit`: it only cancels the browser's default submission and writes the record to the console, both side effects; the record it would write is the wizard's `form` component, which `EventForm.OrientationScenario` describes at the moment submit becomes available.
- Callbacks are not tied to the step that shows them: an edit event is accepted on any step, while the component only renders the active step's sub-form. This permits more interleavings than the screen offers and does not affect the stated properties.
- React state batching and stale capture of `formData` by callbacks: every callback is one sequential transition on the current record.
- `EventFields.RemoveObjective`: the index is an unbounded integer; a fractional or NaN JavaScript number (which matches no position and so also removes nothing) is not modelled.
- `EventFields.RemoveAttachment`: same as above for fractional or NaN indices.
- `EventFields.SetGender`: the key is one of the two flags; a sub-form passing any other string key (which the spread would add as a third property) is not modelled.
- `EventFields.SetLocationType`: the location type is the two-valued enumeration the record's type declares; an untyped string is not modelled.
- File contents and handles' lifetimes: attachments are of an opaque type.

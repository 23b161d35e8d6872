# PennForms validation core, in Dafny

PennForms is a SwiftUI forms library. The model here covers its validation engine and the small value rules inside its fields.

Validation engine:
- the `Validator` protocol and type erasure through `AnyValidator`;
- the combinators: `RequiredValidator`, `AtLeastValidator`, `AtMostValidator`, `BetweenValidator`, `ManyValidators`, `NotNilValidator`, `AlwaysValidator` and `NeverValidator`;
- the `ValidPreferenceKey` fold, which turns per-field validity reports into the form's validity.

Field rules:
- the sentinel encodings of optional values: `"∞"` for text, `distantPast`/`distantFuture` for dates, NaN for numbers;
- the text area's character limit;
- the date range field's sub-range clamp, error line and first-tap defaults;
- the numeric field's clamping `RangeFormatter`;
- the tag selector's toggle, its custom-tag append and the greedy row packing of `TagGrid.computeRows`.

How Swift concepts are represented:
- A value seen through Swift's `Any` is a tagged `Values.Value`, and `as?` casts become tag tests (`Validation.Casts`).
- A `Decimal` is a real or NaN. A `Date` is a whole number of seconds since Foundation's reference date.
- Every validator is a case of the `Validation.Validator` datatype. `IsValid` is its `isValid`, and `Message(v, x)` is its input-dependent `message(x)`. The protocol demands an input-dependent message, so `RequiredValidator` and `ManyValidators`, which declare a plain `String?`, are modelled the same way.
- Views whose fields change in place become classes: `DateField.DateFieldState`, `DateRangeField.DateRangeFieldState`, `TextAreaField.TextArea`, `TagSelector.Selector` and `TagSelector.TagGrid`.

The code and the protocol's documentation disagree on `ManyValidators.message`. The code follows the first member; the documentation follows the first failing member. The model gives both, and the rest of the model uses the documented rule (see Findings).

Ordering:
- A `Comparable` limit is a string, a decimal, a date or an integer.
- Strings compare lexicographically by character, with no Unicode normalisation (see Left out). NaN is below every finite decimal.
- `>=` and `<=` are derived from `<` as Swift's `Comparable` derives them.

Inputs from outside the core become parameters:
- The current time (`Date()`/`.now`) is `now`.
- The calendar's "now plus `upperOffset` days" is `shifted`.
- The result of a `() -> Bool` validator closure is the snapshot `verdict`.
- String interpolation of a limit (`"\(value)"`) is `describe`.
- The base number formatter's `format` is `render`.

## Model

| member | source | states |
|---|---|---|
| Validation.IsValid | Sources/PennForms/Validators/Validator.swift:5 | each validator's `isValid`, case by case; the properties each combinator promises are the lemmas of its module |
| Validation.Message | Sources/PennForms/Validators/Validator.swift:7-10 | the input-dependent message; a composite that accepts a present input shows no message |
| Validation.Call | Sources/PennForms/Validators/Validator.swift:14-16 | `callAsFunction(input:)` returns exactly `isValid(input)` |
| Validation.FirstFailing | Sources/PennForms/Validators/Validator.swift:7-9 | the index found is the first member that rejects the input, or the length when all accept it; every member before it accepts |
| Validation.UnboundAcceptsEverything | Sources/PennForms/Validators/Validator.swift:19-21 | the validator a field sees when none is bound, `AnyValidator(AlwaysValidator())`, accepts every value and has a nil message for every input |
| ValidPreference.Reduce | Sources/PennForms/Validators/Validator.swift:50-56 | a false accumulator stays false whatever the next report is; a true accumulator becomes the next report |
| ValidPreference.FoldIsConjunction | Sources/PennForms/Validators/Validator.swift:48-56 | folding `reduce` from the default `true` over a pass's reports gives true iff every report is true, and true for an empty pass |
| ValidPreference.FoldConcatenation | Sources/PennForms/Validators/Validator.swift:48-56 | the reports of two groups of fields combine by AND |
| ValidPreference.RecoversAfterFailure | Sources/PennForms/Validators/Validator.swift:48-56 | a pass with a false report is invalid, and a later pass whose reports are all true is valid again, since each pass is folded afresh |
| AnyValidator.Erase | Sources/PennForms/Validators/AnyValidator.swift:10-23 | on an input that casts to the wrapped validator's `Input` type, the erased validator's validity and message are the wrapped ones; otherwise it rejects and has a nil message; nil gets the wrapped message when the `Input` type is `Any?` and no message for any other type |
| AnyValidator.ErasedDelegates | Sources/PennForms/Validators/AnyValidator.swift:11-21 | on an input of the wrapped type, `isValid` and `message` are the wrapped validator's |
| AnyValidator.ErasedFailsClosed | Sources/PennForms/Validators/AnyValidator.swift:12-19 | on an input of another type the erasure rejects and gives no message |
| AnyValidator.EraseTwice | Sources/PennForms/Validators/AnyValidator.swift:6-8 | `isValid` is the stored closure applied to the input, so re-erasing through `Any` judges exactly as the erasure does and shows the same message for every present input |
| AnyValidator.AnyOptional | Sources/PennForms/Validators/AnyValidator.swift:10-23 | erasing a validator whose `Input` is `Any?` keeps its validity and its message for every input, nil included |
| AnyValidator.ErasedHasNoMessageForNil | Sources/PennForms/Validators/AnyValidator.swift:17-19 | for every `Input` type but `Any?`, the erasure's message for nil is nil |
| AnyValidator.FromClosure | Sources/PennForms/Validators/AnyValidator.swift:25-28 | the closure validator ignores its input: validity is the closure's result and the message is the constant supplied |
| AnyValidator.FromClosureDefault | Sources/PennForms/Validators/AnyValidator.swift:25-28 | with no message supplied, the message is nil for every input |
| AnyValidator.Any | Sources/PennForms/Validators/AnyValidator.swift:31-34 | `.any(v)` of a validator whose `Input` is `Any` agrees with `v` on every value, in validity and in message |
| RequiredValidator.WithMessage | Sources/PennForms/Validators/RequiredValidator.swift:7-9 | the given message is stored verbatim, is the message for every input, and the validator accepts exactly what `isValid` accepts |
| Emptiness.IsEmpty | Sources/PennForms/Validators/RequiredValidator.swift:32-58 | `empty` of the four conforming types: "" or "∞", NaN, distantPast or distantFuture, and the empty ordered set |
| RequiredValidator.Default | Sources/PennForms/Validators/RequiredValidator.swift:7-9 | `.required` accepts exactly the values `Required` accepts and carries the message "Required field" for every input |
| RequiredValidator.RequiredString | Sources/PennForms/Validators/RequiredValidator.swift:36-40 | a string is rejected iff it is `""` or `"∞"` |
| RequiredValidator.RequiredDate | Sources/PennForms/Validators/RequiredValidator.swift:48-52 | a date is rejected iff it is distantPast or distantFuture |
| RequiredValidator.RequiredDecimal | Sources/PennForms/Validators/RequiredValidator.swift:42-46 | a decimal is rejected iff it is NaN |
| RequiredValidator.RequiredSet | Sources/PennForms/Validators/RequiredValidator.swift:54-58 | an ordered set is rejected iff it is empty |
| RequiredValidator.RequiredRejectsNil | Sources/PennForms/Validators/RequiredValidator.swift:16-17 | nil is rejected |
| RequiredValidator.RequiredAcceptsOtherTypes | Sources/PennForms/Validators/RequiredValidator.swift:16-20 | a present value of a type with no emptiness rule is accepted |
| AtLeastValidator.WithFormatter | Sources/PennForms/Validators/AtLeastValidator.swift:15-19 | the message is computed once from the limit and is the same for every input |
| AtLeastValidator.WithMessage | Sources/PennForms/Validators/AtLeastValidator.swift:21-24 | the given message is the message for every input |
| AtLeastValidator.WithDefaultMessage | Sources/PennForms/Validators/AtLeastValidator.swift:26-29 | the message is "Must be at least " followed by the limit, for every input |
| AtLeastValidator.AcceptsIffNotBelow | Sources/PennForms/Validators/AtLeastValidator.swift:33-34 | a value of the limit's type is accepted iff it is `>=` the limit |
| AtLeastValidator.FailsOpen | Sources/PennForms/Validators/AtLeastValidator.swift:35-36 | a value of another type is accepted |
| AtLeastValidator.LimitAccepted | Sources/PennForms/Validators/AtLeastValidator.swift:34 | the limit itself is accepted |
| AtLeastValidator.UpwardClosed | Sources/PennForms/Validators/AtLeastValidator.swift:34 | if x is accepted and y >= x then y is accepted |
| AtMostValidator.WithFormatter | Sources/PennForms/Validators/AtMostValidator.swift:15-19 | the message is computed once from the limit and is the same for every input |
| AtMostValidator.WithMessage | Sources/PennForms/Validators/AtMostValidator.swift:21-24 | the given message is the message for every input |
| AtMostValidator.WithDefaultMessage | Sources/PennForms/Validators/AtMostValidator.swift:26-29 | the message is "Must be at most " followed by the limit, for every input |
| AtMostValidator.AcceptsIffNotAbove | Sources/PennForms/Validators/AtMostValidator.swift:33-34 | a value of the limit's type is accepted iff it is `<=` the limit |
| AtMostValidator.FailsOpen | Sources/PennForms/Validators/AtMostValidator.swift:35-36 | a value of another type is accepted |
| AtMostValidator.LimitAccepted | Sources/PennForms/Validators/AtMostValidator.swift:34 | the limit itself is accepted |
| AtMostValidator.DownwardClosed | Sources/PennForms/Validators/AtMostValidator.swift:34 | if x is accepted and y <= x then y is accepted |
| BetweenValidator.WithFormatter | Sources/PennForms/Validators/BetweenValidator.swift:16-21 | the message is computed once from both limits and is the same for every input |
| BetweenValidator.WithMessage | Sources/PennForms/Validators/BetweenValidator.swift:23-27 | the given message is the message for every input |
| BetweenValidator.WithDefaultMessage | Sources/PennForms/Validators/BetweenValidator.swift:29-33 | the message is "Must be between " followed by the low limit, " and ", and the high limit |
| BetweenValidator.IsAtLeastAndAtMost | Sources/PennForms/Validators/BetweenValidator.swift:36-42 | `between(lo, hi)` accepts exactly what both `atLeast(lo)` and `atMost(hi)` accept |
| BetweenValidator.FailsOpen | Sources/PennForms/Validators/BetweenValidator.swift:39-40 | a value of another type is accepted |
| BetweenValidator.InvertedRejectsAll | Sources/PennForms/Validators/BetweenValidator.swift:38 | when lo > hi, no value of their type is accepted |
| BetweenValidator.EndpointsAccepted | Sources/PennForms/Validators/BetweenValidator.swift:38 | when lo <= hi, both endpoints are accepted |
| ManyValidators.Make | Sources/PennForms/Validators/ManyValidator.swift:7-14 | construction fails (the `validators[0]` trap) iff the list is empty; the composite accepts exactly what every member accepts |
| ManyValidators.ManyOf | Sources/PennForms/Validators/ManyValidator.swift:25-28 | `.many(vs)` is the initializer |
| ManyValidators.Bind | Sources/PennForms/Validators/ManyValidator.swift:19-22 | `.validator([...])` binds the erasure of the composite, which agrees with it on every value in validity and message |
| ManyValidators.AcceptsIffAllMembersAccept | Sources/PennForms/Validators/ManyValidator.swift:12-14 | the composite accepts x iff every member accepts x |
| ManyValidators.PermutationInvariant | Sources/PennForms/Validators/ManyValidator.swift:13 | reordering the members does not change validity |
| ManyValidators.SingletonAgrees | Sources/PennForms/Validators/ManyValidator.swift:13 | a one-member composite judges as its member |
| ManyValidators.MessageOfFirstFailing | Sources/PennForms/Validators/Validator.swift:7-9 | the composite's message is the message of the first member that rejects the input |
| ManyValidators.NoMessageWhenValid | Sources/PennForms/Validators/Validator.swift:7-9 | a composite that accepts the input has no message for it |
| ManyValidators.FirstOfTwoFails | Sources/PennForms/Validators/Validator.swift:7-9 | of two members, a failing first one gives the message whatever the second says |
| ManyValidators.SecondOfTwoFails | Sources/PennForms/Validators/Validator.swift:7-9 | of two members, when only the second fails it gives the message |
| ManyValidators.MessageAsWritten | Sources/PennForms/Validators/ManyValidator.swift:9 | the message as the code stores it: the first member's message, whatever the input; an empty list traps, so it is required to be non-empty |
| ManyValidators.AsWrittenMissesFirstFailing | Sources/PennForms/Validators/ManyValidator.swift:9 | whenever the first failing member's message differs from the first member's, that member is not the first, the composite rejects, and the message as written differs from the documented one |
| ManyValidators.AsWrittenHidesFailingMessage | Sources/PennForms/Validators/ManyValidator.swift:9 | as written, `[.any(.always), .any(.required)]` rejects `""` yet shows no message, where the first failing member's message is "Required field" |
| NotNilValidator.Make | Sources/PennForms/Validators/NotNilValidator.swift:3-7 | accepts exactly the present values, with "Choose an option" as the message for every input |
| NotNilValidator.RejectsNil | Sources/PennForms/Validators/NotNilValidator.swift:3-7 | `.notNil` rejects nil and its message is "Choose an option" |
| NotNilValidator.ErasedKeepsMessageForNil | Sources/PennForms/Validators/AnyValidator.swift:17-22 | `.any(.notNil)` rejects nil and, since nil casts to `Any?`, shows "Choose an option" for it |
| NotNilValidator.AcceptsSentinelsThatRequiredRejects | Sources/PennForms/Validators/NotNilValidator.swift:4 | `""`, `"∞"`, the sentinel dates, NaN and the empty set are accepted, though `Required` rejects each |
| AlwaysValidator.Make | Sources/PennForms/Validators/AlwaysValidator.swift:2-6 | accepts every input and has a nil message for every input, nil included |
| AlwaysValidator.NeutralInMany | Sources/PennForms/Validators/AlwaysValidator.swift:2-4 | inserting `Always` anywhere in a composite leaves its validity unchanged |
| AlwaysValidator.ErasedIsUnbound | Sources/PennForms/Validators/AlwaysValidator.swift:2-4 | the erasure of `Always` is the unbound default |
| NeverValidator.Make | Sources/PennForms/Validators/NeverValidator.swift:2-6 | rejects every input and has a nil message for every input |
| NeverValidator.ManyWithNeverRejects | Sources/PennForms/Validators/NeverValidator.swift:2-4 | a composite holding `.any(.never)` rejects every input |
| NeverValidator.ErasedRejectsAll | Sources/PennForms/Validators/NeverValidator.swift:2-6 | the erasure of `Never` rejects every value and has a nil message |
| SentinelBinding.Get | Sources/PennForms/FormComponents/TextLineField.swift:18-21 | the getter shows the sentinel for nil and a stored value as itself |
| SentinelBinding.Set | Sources/PennForms/FormComponents/TextLineField.swift:22 | the setter stores nil exactly for the sentinel and any other value as itself |
| SentinelBinding.GetOfSet | Sources/PennForms/FormComponents/TextLineField.swift:17-23 | whatever the field writes through a sentinel binding, it reads back |
| SentinelBinding.SetOfGet | Sources/PennForms/FormComponents/TextLineField.swift:17-23 | a stored value survives a read and write-back iff it is not the sentinel; a stored sentinel collapses to nil |
| TextLineField.GetterShowsInfinityForNil | Sources/PennForms/FormComponents/TextLineField.swift:18-21 | the getter shows nil as "∞" and a present string as itself |
| TextLineField.SetterStoresNilForInfinity | Sources/PennForms/FormComponents/TextLineField.swift:22 | the setter stores nil for "∞" and any other string as itself |
| TextLineField.RoundTrips | Sources/PennForms/FormComponents/TextLineField.swift:17-23 | `get(set(s)) == s` for every s; `set(get(x)) == x` iff x is not `Some("∞")` |
| TextLineField.UnsetTextIsRequiredEmpty | Sources/PennForms/FormComponents/TextLineField.swift:19 | `Required` rejects what an unset text shows |
| TextAreaField.BindingRoundTrips | Sources/PennForms/FormComponents/TextAreaField.swift:19-25 | the text area's optional binding is the same "∞" encoding with the same round-trip laws |
| TextAreaField.Truncated | Sources/PennForms/FormComponents/TextAreaField.swift:68-71 | with no limit the text is kept; with a non-negative limit the result is a prefix of the text of length min(count, limit); a negative limit traps |
| TextAreaField.WithinLimitUnchanged | Sources/PennForms/FormComponents/TextAreaField.swift:69 | a text within the limit, or with no limit, is left as it is |
| TextAreaField.OverLimitKeepsPrefix | Sources/PennForms/FormComponents/TextAreaField.swift:69-70 | a text longer than the limit becomes exactly its first `characterCount` characters |
| TextAreaField.Idempotent | Sources/PennForms/FormComponents/TextAreaField.swift:68-71 | truncating twice is truncating once |
| TextAreaField.RemainingNonNegative | Sources/PennForms/FormComponents/TextAreaField.swift:60-71 | after truncation to a non-negative limit, the remaining count `characterCount - count` is not negative |
| TextAreaField.ClearedSignIsStoredEmpty | Sources/PennForms/FormComponents/TextAreaField.swift:38-42 | writing "" over a shown "∞" stores `Some("")`, not nil; it reads back as "", which `Required` still rejects |
| TextAreaField.TextArea.ClearInfinitySign | Sources/PennForms/FormComponents/TextAreaField.swift:38-42 | a text showing "∞" becomes ""; any other text is left as it is |
| TextAreaField.TextArea.OnChange | Sources/PennForms/FormComponents/TextAreaField.swift:68-72 | the text becomes its truncation to the limit, or the call traps and the text is untouched |
| DateField.BindingMapsNilToDistantFuture | Sources/PennForms/FormComponents/DateField.swift:16-22 | the getter shows nil as distantFuture; the setter stores nil for distantFuture and any other date as itself |
| DateField.BindingRoundTrips | Sources/PennForms/FormComponents/DateField.swift:15-23 | `get(set(d)) == d` for every date; `set(get(x)) == x` iff x is not `Some(distantFuture)` |
| DateField.UnsetDateIsRequiredEmpty | Sources/PennForms/FormComponents/DateField.swift:17 | `Required` rejects what an unset date shows |
| DateField.PlaceholderIffUnset | Sources/PennForms/FormComponents/DateField.swift:54 | the placeholder shows iff the bound date is unset or holds distantFuture |
| DateField.PickerRangeDefault | Sources/PennForms/FormComponents/DateField.swift:90 | with no range given, the picker offers distantPast...distantFuture; otherwise the range given |
| DateField.DateFieldState.Tap | Sources/PennForms/FormComponents/DateField.swift:45-50 | a tap while the picker is hidden and the date unset sets the date to now; otherwise the date is unchanged; visibility toggles either way |
| DateRangeField.BindingsRoundTrip | Sources/PennForms/FormComponents/DateRangeField.swift:19-36 | the lower date encodes nil as distantPast and the upper as distantFuture, each getter and setter inverse as in the other fields |
| DateRangeField.DefaultRange | Sources/PennForms/FormComponents/DateRangeField.swift:37 | with no range given, the field's range is distantPast...distantFuture |
| DateRangeField.ClampedSubranges | Sources/PennForms/FormComponents/DateRangeField.swift:52-57 | both sub-ranges are well-formed and share the field's outer bounds; their inner bounds lie in the field's range, equal the other date when it is in range and the nearer bound otherwise |
| DateRangeField.ClampIsIdentityInside | Sources/PennForms/FormComponents/DateRangeField.swift:52-55 | when lower <= upper both lie in the range, the lower picker ends at the upper date and the upper picker starts at the lower date |
| DateRangeField.PickersStayInRange | Sources/PennForms/FormComponents/DateRangeField.swift:52-57 | every date either picker offers is in the field's range |
| DateRangeField.ErrorText | Sources/PennForms/FormComponents/DateRangeField.swift:60 | an error shows only when errors are visible and either date is invalid; its text is the lower date's message, falling back to the upper date's |
| DateRangeField.UnsetLowerShowsRequired | Sources/PennForms/FormComponents/DateRangeField.swift:60 | under `.any(.required(m))` with errors visible, an unset lower date shows `m`, whatever the upper date |
| DateRangeField.PlaceholderIffRequiredRejects | Sources/PennForms/FormComponents/DateRangeField.swift:97 | a subfield shows its placeholder iff its date is one of the two sentinels, which is exactly when `Required` rejects it |
| DateRangeField.DateRangeFieldState.constructor | Sources/PennForms/FormComponents/DateRangeField.swift:18-43 | the field starts with its bindings, the given or default range, and both first-tap flags false |
| DateRangeField.DateRangeFieldState.TapLower | Sources/PennForms/FormComponents/DateRangeField.swift:70-72 | the lower picker toggles and `wasSet1` becomes true; on the first tap the lower date becomes now when the range has no lower bound, else the range's lower bound; nothing else changes |
| DateRangeField.DateRangeFieldState.TapUpper | Sources/PennForms/FormComponents/DateRangeField.swift:73-75 | the upper picker toggles and `wasSet2` becomes true; on the first tap the upper date becomes now plus the offset, falling back to now or to the range's upper bound when the calendar gives nil; nothing else changes |
| NumericField.IntGet | Sources/PennForms/FormComponents/NumericField.swift:13-15 | the getter shows NaN exactly for an unset integer, and a whole decimal otherwise |
| NumericField.IntSet | Sources/PennForms/FormComponents/NumericField.swift:17 | the setter stores nil exactly for NaN, and otherwise an integer within one of the decimal |
| NumericField.TowardZero | Sources/PennForms/FormComponents/NumericField.swift:17 | the integer kept differs from the decimal by less than one and lies between it and zero |
| NumericField.NilMapsToNaN | Sources/PennForms/FormComponents/NumericField.swift:13-17 | an unset integer shows NaN, and NaN stores nil |
| NumericField.SetOfGet | Sources/PennForms/FormComponents/NumericField.swift:13-18 | every stored optional integer survives being shown and written back |
| NumericField.GetOfSetWhole | Sources/PennForms/FormComponents/NumericField.swift:13-18 | a whole decimal, or NaN, written and read back is unchanged |
| NumericField.GetOfSetFraction | Sources/PennForms/FormComponents/NumericField.swift:13-18 | a decimal with a fractional part is changed by writing and reading back: the fraction is lost |
| NumericField.UnsetIsRequiredEmpty | Sources/PennForms/FormComponents/NumericField.swift:14 | `Required` rejects what an unset integer shows |
| NumericField.Format | Sources/PennForms/FormComponents/NumericField.swift:126-134 | `RangeFormatter.format`: the base formatter applied to the value clamped into the range, as `FormatRendersClamped` proves |
| NumericField.Clamped | Sources/PennForms/FormComponents/NumericField.swift:126-134 | the value handed to the base formatter lies in the range: the upper bound above it, the lower bound below it, the value itself inside |
| NumericField.FormatRendersClamped | Sources/PennForms/FormComponents/NumericField.swift:126-134 | `format` renders the upper bound for a value above the range, the lower bound for one below it, and the value itself otherwise |
| NumericField.ClampIdempotent | Sources/PennForms/FormComponents/NumericField.swift:126-134 | clamping twice is clamping once |
| NumericField.WithRange | Sources/PennForms/FormComponents/NumericField.swift:137-139 | `range(r)` carries exactly r and the receiver as its base formatter |
| NumericField.WithRangeFormats | Sources/PennForms/FormComponents/NumericField.swift:137-139 | a formatter made by `range(r)` renders, with the receiver, the value clamped into r |
| TagSelector.Appended | Sources/PennForms/FormComponents/TagSelector.swift:120 | `OrderedSet.append` makes the element a member and adds no other element |
| TagSelector.AppendedKeepsNoDuplicates | Sources/PennForms/FormComponents/TagSelector.swift:120 | appending keeps the set duplicate-free, leaves it unchanged when the element is present and adds it at the end otherwise |
| TagSelector.WithoutMembers | Sources/PennForms/FormComponents/TagSelector.swift:58 | after `remove(x)`, y is a member iff it was one and is not x |
| TagSelector.WithoutAt | Sources/PennForms/FormComponents/TagSelector.swift:58 | in a duplicate-free sequence, removing x cuts it out at its one position |
| TagSelector.Toggled | Sources/PennForms/FormComponents/TagSelector.swift:58 | a tap removes a selected tag and appends an unselected one; its laws are the three `Toggle…` lemmas |
| TagSelector.ToggleFlipsOnlyItsTag | Sources/PennForms/FormComponents/TagSelector.swift:58 | a toggle flips the membership of its tag and of no other |
| TagSelector.ToggleKeepsOthersInOrder | Sources/PennForms/FormComponents/TagSelector.swift:58 | a toggle keeps the selection duplicate-free and the other tags in their relative order |
| TagSelector.ToggleTwiceRestoresUnselected | Sources/PennForms/FormComponents/TagSelector.swift:58 | tapping an unselected tag twice leaves the selection as it was |
| TagSelector.IndexOf | Sources/PennForms/FormComponents/TagSelector.swift:58 | finds the first position of the tag in the selection, or reports that it is absent |
| TagSelector.Selector.Toggle | Sources/PennForms/FormComponents/TagSelector.swift:58 | the selection becomes its toggle by the tag (removed if selected, appended if not) and stays duplicate-free |
| TagSelector.TagGrid.OpenTagCreator | Sources/PennForms/FormComponents/TagSelector.swift:101-102 | on a customisable grid the "Add your own" button opens the sheet and changes nothing else |
| TagSelector.TagGrid.AddTag | Sources/PennForms/FormComponents/TagSelector.swift:120 | the sheet closes; an empty name leaves the tags unchanged, and any other name appends `tagFromString(name)`; the tags stay duplicate-free |
| TagSelector.Place | Sources/PennForms/FormComponents/TagSelector.swift:145-153 | one step of the loop: the tag joins the last row when its width plus spacing fits the remaining width, and starts a new row otherwise |
| TagSelector.LayoutOf | Sources/PennForms/FormComponents/TagSelector.swift:137-157 | the rows the loop computes, as a left fold of `Place` from one empty row at the full width; there is always at least one row |
| TagSelector.LayoutIsWellPacked | Sources/PennForms/FormComponents/TagSelector.swift:137-157 | the rows hold exactly the tags in order; there is at least one row and every row after the first is non-empty; every row fits the width unless it is a lone tag too wide for any row; a row starts only for a tag that did not fit in the row before |
| TagSelector.DefaultSizesGiveOneTagPerRow | Sources/PennForms/FormComponents/TagSelector.swift:143-150 | with no sizes read and a positive spacing, the first row is empty and every tag gets a row of its own |
| TagSelector.TagGrid.ComputeRows | Sources/PennForms/FormComponents/TagSelector.swift:137-157 | the loop computes the greedy layout of the tags, with every packing guarantee of `LayoutIsWellPacked` |

## Left out

- SwiftUI view bodies, styling, popovers and sheets are left out. Only the state changes their buttons make are modelled.
- FormComponent.swift, FormBuilder.swift, LabsForm.swift, FormGroup.swift, OptionField.swift, PairFields.swift, ComponentsFieldStyle.swift and ImagePicker.swift are not part of this model: they are presentation, result-builder glue, or asynchronous photo loading.
- The sites inside view bodies that emit `false` reports are left out. Aggregation is modelled over an explicit list of reports.
- SwiftUI `Environment` and `PreferenceKey` propagation are framework behaviour. Only the values they carry are modelled.
- Swift's runtime casts are replaced by the tags of `Values.Value`.
- The force casts `as! Self` in the `atLeast`/`atMost`/`between` extensions are left out: they trap for any `Self` but the validator's own type.
- Foundation's date and number formatting, `Calendar` and string interpolation are parameters (`describe`, `render`, `shifted`).
- The `Binding<Double?>` initializers of `NumericField` are left out, because they are floating point.
- NumericField.IntSet: the integer conversion is modelled as truncation toward zero with unbounded integers, so it does not capture `NSDecimalNumber.intValue` on values outside `Int`'s range. It also treats NaN as equal to itself, as the setter's `== .nan` test needs.
- `Decimal` is a real or NaN, so Foundation's limited precision is not modelled.
- `TagGrid` widths and spacing are natural numbers, not `CGFloat`; the remaining width is an integer and may go negative, as in the code.
- `elementsSize` is kept as a map in the grid: the code never writes it, because its size reader is commented out.
- Character counts are counts of Dafny characters, not Swift grapheme clusters.
- String comparison and equality are by character. Swift compares `String`s up to Unicode canonical equivalence, so two differently normalised spellings of one text are equal in Swift and different here; normalisation is not modelled.
- AnyValidator.Erase: only `Any?` is taken to accept nil. Every other `Input` type, `Any` included, is taken to reject it; the model does not settle how Swift casts an absent `Any?` to a non-optional protocol type.
- The `introspect` closures of `TextLineField` (Sources/PennForms/FormComponents/TextLineField.swift:36-40) and `NumericField` (Sources/PennForms/FormComponents/NumericField.swift:79-96), and the `UITextField.appearance()` settings, are left out: they change only the UIKit view's text and colour, never a binding.
- TextAreaField.TextArea.ClearInfinitySign: when UIKit runs the editor's `introspect` hook is not modelled. The method is the hook's write through the binding, so an unset text area ends up storing `Some("")`.
- AnyValidator.FromClosure: the `() -> Bool` closure is taken as the value it returns at the time of the call, so closures over changing state are not modelled.
- The non-optional `Binding<String>`, `Binding<Date>` and `Binding<Int>` initializers are left out; they bind the value directly, with no sentinel.

## Findings

| source | as written | input that shows it | evidently intended | confidence | as-written member | corrected member |
|---|---|---|---|---|---|---|
| Sources/PennForms/Validators/ManyValidator.swift:9 | the composite's message is `validators[0].message`, whichever member fails | `[.any(.always), .any(.required)]` on `""`: the input is rejected and no message is shown | the message of the first member that rejects the input (Sources/PennForms/Validators/Validator.swift:7-9) | not executed | ManyValidators.AsWrittenHidesFailingMessage | ManyValidators.MessageOfFirstFailing |

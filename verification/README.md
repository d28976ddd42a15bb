# exai-interactive, modelled in Dafny

The exai interactive is a scroll-driven animation. It has a fabric.js canvas of shapes and images, a GSAP "sacred timeline" scrubbed by scroll, and stage text that fades in and out letter by letter. Under the DOM, canvas and GSAP calls sit a handful of pure helpers, and this project models those helpers and proves what they promise:

- **Rectangle geometry** (`geometry.dfy`, module `Geometry`):
  - `normalizeBoundingRect` adds the centre point and half-extents.
  - `transformBoundingRect` re-expresses one rectangle relative to another.
- **Label-time resolution** (`timeline.dfy`, module `Timeline`):
  - `getLabelTime` runs over an immutable tree of nested timelines.
  - Descendants are addressed by paths of child indices. GSAP's `getChildren` enumeration order is an input sequence of paths.
  - The source's bottom-up loop is a method. It is proved equal to a declarative top-down definition.
- **Small helpers** (`utils.dfy`, module `Utils`):
  - `randInRange`, with each `Math.random()` draw a parameter in [0, 1).
  - `Math.floor(x * 10^places) / 10^places` truncation, JavaScript's `Math.round`, and `mergeObj`.
- **Configuration** (`config.dfy`, module `Config`): the defaults table of the interactive's constructor and its merge with the caller's options.
- **Drawable selection** (`drawables.dfy`, module `Drawables`): `getDrawables`, `getShapes` and `getImages`.
- **Stage text tweens** (`stagecontent.dfy`, module `StageContent`):
  - the component order of `addStageContentTween`;
  - its per-child targets and offsets;
  - the letters-stagger lookup, both as the source performs it and corrected (see "## Findings"); every schedule is built with one of the two, named by a parameter.
- **Stage bookkeeping** (`stages.dfy`, module `Stages`):
  - the per-stage flags;
  - progress-bar indexing;
  - `addInBetweenTween` placement;
  - the expandable-shape index selection.
- **Shared pieces**: `wrappers.dfy` (module `Wrappers`, the `Option` type standing for `undefined`) and `seqs.dfy` (module `Seqs`, reverse, flatten and filter-present helpers).

JavaScript numbers are modelled as `real`, integer counts as `nat`, and `undefined` or `NaN` results as `None`.

The stage loop that computes the flags and calls `addStageContentTween` and `addInBetweenTween` is in `createTheSacredTimeline`. That method returns at src/scripts/interactive.js:489 before any of it runs. The flags, tweens and in-between placements are therefore modelled as the arithmetic the helpers would perform, not as behaviour the running page shows.

## Model

| member | source | states |
|---|---|---|
| Geometry.Normalize | src/scripts/utils.js:105-115 | the base fields are unchanged; cx = x + width/2, cy = y + height/2, halfWidth = width/2, halfHeight = height/2 |
| Geometry.NormalizeDependsOnBase | src/scripts/utils.js:109-112 | two rectangles normalize to the same record exactly when their base fields agree, so the old derived fields never matter |
| Geometry.NormalizeFixedPoint | src/scripts/utils.js:105-115 | normalizing leaves a rectangle unchanged exactly when its derived fields are already consistent |
| Geometry.NormalizeIdempotent | src/scripts/utils.js:105-115 | normalizing twice equals normalizing once |
| Geometry.Transform | src/scripts/utils.js:120-130 | x, y, top, right, bottom and left are the target's minus the reference's; width and height are the target's; the result is normalized |
| Geometry.TransformCentre | src/scripts/utils.js:122-129 | for a normalized target, the result's cx is target.cx − ref.x, and likewise cy; the half-extents are the target's |
| Geometry.TransformSelf | src/scripts/utils.js:122-129 | a rectangle transformed against itself has all six position fields 0 |
| Geometry.TransformRoundTrip | src/scripts/utils.js:120-130 | adding the reference's offsets back to a transformed rectangle recovers the normalized target |
| Geometry.TransformCommonFrame | src/scripts/utils.js:120-130 | transforming two rectangles into a common frame and then one against the other equals transforming them directly |
| Timeline.ToRootTime | src/scripts/utils.js:163-168 | a time local to a descendant carried to the root, each node on the path mapping u to startTime + u / timeScale; ToRootTimeLastStep and ToRootTimeMonotone state its meaning |
| Timeline.ToRootTimeLastStep | src/scripts/utils.js:163-168 | the root time of a node's local time equals the root time, in its parent, of startTime + time / timeScale: one step of the upward walk |
| Timeline.ToRootTimeMonotone | src/scripts/utils.js:163-168 | with positive time scales along the path, later local times map to later root times |
| Timeline.LastHolder | src/scripts/utils.js:149-161 | returns the last position in the enumeration whose node holds the label, or None exactly when no enumerated node holds it |
| Timeline.GetLabelTime | src/scripts/utils.js:140-170 | the backwards scan over the enumeration followed by the root, then the walk up the parents, yields the declarative LabelTime; the result is undefined exactly when the name is not reserved and neither the root nor any enumerated node holds it |
| Timeline.WalkToRoot | src/scripts/utils.js:163-168 | the parent-chain loop computes the top-down root time of the found node's local time |
| Timeline.ReservedLabels | src/scripts/utils.js:142-147 | "start" resolves to 0 and "end" to the root's total duration, without searching |
| Timeline.RootLabelWins | src/scripts/utils.js:149-161 | a label on the root resolves to the root's own value, untransformed, whatever the descendants hold |
| Timeline.LastDescendantWins | src/scripts/utils.js:149-168 | otherwise the last descendant in enumeration order holding the label decides, its time carried to the root |
| Timeline.NotFoundMeansAbsent | src/scripts/utils.js:155-169 | when the enumeration reaches every descendant, a label resolves to nothing exactly when no node in the tree holds it |
| Timeline.NestedExample | src/scripts/utils.js:165 | a label at 4 in a child starting at 10 with time scale 2 resolves to 12 |
| Utils.JsRound | src/scripts/interactive.js:227 | Math.round lands within half a unit of its argument, halves going up |
| Utils.Truncate | src/scripts/utils.js:74 | the truncated value is at most the input and less than one step of 1/scale below it |
| Utils.TruncateWhole | src/scripts/utils.js:74 | the truncated value times the scale is the whole number floor(v · scale) |
| Utils.TruncateUnique | src/scripts/utils.js:74 | the truncation is the only multiple of 1/scale in (v − 1/scale, v] |
| Utils.FloorToPlaces | src/scripts/utils.js:72-74 | the result has at most `places` decimals, is at most the input, and is less than 10^−places below it |
| Utils.FloorToPlacesUnique | src/scripts/utils.js:72-74 | any value with at most `places` decimals in (v − 10^−places, v] is the result |
| Utils.Bounds | src/scripts/utils.js:66-69 | with max omitted the range is [−\|min\|, \|min\|]; otherwise it is (min, max) as given |
| Utils.Draw | src/scripts/utils.js:71 | a draw in [0, 1) scaled into the range lies between its ends and never reaches the second unless they coincide |
| Utils.RandInRange | src/scripts/utils.js:64-83 | the unsigned result is at most the raw draw and less than 10^−places below it |
| Utils.RandInRangeIsMultiple | src/scripts/utils.js:72-80 | the result, signed or not, has at most `places` decimals |
| Utils.RandInRangeSignOnlyNegates | src/scripts/utils.js:76-80 | sign randomization returns the unsigned result when the second draw exceeds 0.5, and its negation otherwise |
| Utils.RandInRangeWithin | src/scripts/utils.js:64-83 | for an ordered range whose lower end has at most `places` decimals, the unsigned result stays within the range |
| Utils.RandInRangeSymmetric | src/scripts/utils.js:66-80 | with max omitted and \|min\| having at most `places` decimals, the result lies in [−\|min\|, \|min\|] whether or not the sign is randomized |
| Utils.RandInRangeExamples | src/scripts/utils.js:64-83 | randInRange(1, 3) lies in [1, 3] and randInRange(5, null, true) lies in [−5, 5] |
| Utils.MergeObj | src/scripts/utils.js:88-90 | the merged keys are the union of all arguments' keys; a key takes its value from the last argument holding it |
| Utils.MergeOverDefaults | src/scripts/interactive.js:85 | merging options over defaults keeps every default key, lets options win, and adds the options' own keys |
| Config.Defaults | src/scripts/interactive.js:33-83 | the 37 entries of the defaults table, numbers as reals and booleans as flags; StaggerDefaults states its stagger entries |
| Config.Resolve | src/scripts/interactive.js:33-85 | the effective configuration holds the default keys and the caller's; the caller's values win, and defaults fill the rest |
| Config.ResolveDefaults | src/scripts/interactive.js:33-85 | with no options the configuration is the defaults table, and every default key is always readable |
| Config.ResolveLookup | src/scripts/interactive.js:85 | reading a default key yields the caller's value when given, the default otherwise |
| Config.ResolveWithout | src/scripts/interactive.js:85 | dropping one option changes the resolved configuration at that key only |
| Config.StaggerDefaults | src/scripts/interactive.js:79-82 | lettersStagger and headingLettersStagger default to 0.06, body and scroll-prompt staggers to 0.0055; no header or progress key exists |
| Drawables.Lookup | src/scripts/interactive.js:948 | an index read yields the entry inside the array and undefined outside it |
| Drawables.IncludedPositions | src/scripts/interactive.js:943-945 | the included categories are exactly those whose mask entry is truthy, listed in increasing category order with none repeated; positions past the mask count as excluded |
| Drawables.Selection | src/scripts/interactive.js:939-956 | the loop's result built category by category: each included category appends all its drawables, or with an index its entry at the index; its meaning is stated by SelectionAll and SelectionAtIndex |
| Drawables.GetDrawables | src/scripts/interactive.js:939-958 | without an index, the result is every drawable of every included category in category order; with an index, one entry per included category, that category's entry at the index |
| Drawables.SelectionAll | src/scripts/interactive.js:943-951 | with no index the selection is the concatenation of the included categories |
| Drawables.SelectionAtIndex | src/scripts/interactive.js:943-948 | with an index the selection has one entry per included category, in order |
| Drawables.PaddingIgnored | src/scripts/interactive.js:945 | padding the mask with falsy entries changes nothing |
| Drawables.GetShapes | src/scripts/interactive.js:927-934 | the categories are shapes, masks and images in that order; the default mask takes only the shapes; mask [1, 1] with an index gives the shape then the mask at it |
| Drawables.GetImages | src/scripts/interactive.js:915-922 | the rainbow image comes before the shape images; the default mask takes the rainbow image alone |
| StageContent.ComponentOrder | src/scripts/interactive.js:776-783 | the order array with its optional entries, reversed for an out-tween before absent entries are dropped; its meaning is stated by InOrder, OutOrder and ComponentOrderMembers |
| StageContent.InOrder | src/scripts/interactive.js:776-783 | in-tweens animate header, body, then progress and scroll prompt when requested |
| StageContent.OutOrder | src/scripts/interactive.js:782-783 | out-tweens animate the same components in reverse order |
| StageContent.ComponentOrderMembers | src/scripts/interactive.js:776-783 | header and body always animate, progress and scroll prompt exactly when requested, and none twice |
| StageContent.LettersStaggerAsWritten | src/scripts/interactive.js:790 | the stagger is the value under the component name followed by "LettersStagger" when truthy, and lettersStagger otherwise |
| StageContent.HeadingStaggerIgnored | src/scripts/interactive.js:790 | as written, the header's stagger does not depend on the caller's headingLettersStagger |
| StageContent.HeadingKeyUnread | src/scripts/interactive.js:790 | as written, storing any value under headingLettersStagger leaves the header's stagger unchanged, in every configuration |
| StageContent.HeadingKeyRead | src/scripts/interactive.js:790 | with the corrected key, a truthy value stored under headingLettersStagger becomes the header's stagger |
| StageContent.HeadingStaggerExample | src/scripts/interactive.js:80 | a caller's headingLettersStagger of 0.5 yields 0.06 as written and 0.5 with the corrected key |
| StageContent.StaggerKey | src/scripts/interactive.js:79-82 | every component but progress has its own stagger key among the defaults |
| StageContent.LettersStagger | src/scripts/interactive.js:790 | a truthy component stagger is used, otherwise lettersStagger |
| StageContent.LettersStaggerResolved | src/scripts/interactive.js:790 | a caller's truthy stagger for the component wins; otherwise the caller's lettersStagger when given |
| StageContent.LettersStaggerDefaults | src/scripts/interactive.js:79-82 | with defaults, header and progress stagger 0.06, body and scroll prompt 0.0055 |
| StageContent.Flip | src/scripts/interactive.js:795-797 | out-tweens reverse an array child one level deep; elements and in-tweens keep the child |
| StageContent.FlipTwice | src/scripts/interactive.js:795-797 | reversing an array child twice restores it |
| StageContent.Schedule | src/scripts/interactive.js:793-804 | the inner loop over one component's children: one tween per child, back to front with arrays reversed for an out-tween, in or out values, the given stagger and duration, and child n starting componentStagger·k + childStagger·n after the label |
| StageContent.ComponentTweens | src/scripts/interactive.js:769-804 | one tween per child; out-tweens take the children back to front, arrays reversed; opacity 0 and rotationX 60 out, 1 and 0 in; the letters duration; child n of component k starts componentStagger·k + childStagger·n after the label; the stagger is the lookup the schedule is built with: as written, the source's line-790 key, or the corrected key |
| StageContent.ContentTweens | src/scripts/interactive.js:776-804 | one group per component in the component order; tween n of group k animates the n-th child of the k-th component (from the back for an out-tween) and starts textComponentStagger·k + textComponentChildStagger·n after the label, with the lookup's stagger |
| StageContent.LookupsAgreeButHeader | src/scripts/interactive.js:790 | for body, progress and scroll prompt the source's key and the corrected key coincide |
| StageContent.CorrectionOnlyHeader | src/scripts/interactive.js:776-804 | the corrected schedule is the source's schedule with the header tweens' stagger alone changed: same groups, targets, values and offsets, and the other components' tweens identical |
| StageContent.OutMirrorsIn | src/scripts/interactive.js:782-797 | with either lookup, the out-tweens target the in-tweens' children mirrored: components reversed, children reversed, array children reversed |
| Stages.Flags | src/scripts/interactive.js:590-603 | progress in only at stage 1; progress bar only for 0 < i < stageCount − 1; progress out only at stageCount − 2; scroll prompt only at 0; ContentOut only for i < stageCount − 1 |
| Stages.ProgressBarCount | src/scripts/interactive.js:174-186 | stageCount − 2 bars are created, none for fewer than two stages |
| Stages.BarsMatchStages | src/scripts/interactive.js:591-613 | each stage with a progress bar names a created bar, bar i − 1, and each bar is used by exactly one stage |
| Stages.BarStartFollowsProgressIn | src/scripts/interactive.js:590-612 | a bar starts at its stage's ContentIn label exactly on the stage that brings the progress indicator in |
| Stages.AllFlags | src/scripts/interactive.js:586-613 | the stage loop yields each stage's flags in order |
| Stages.ContentOutAllButLast | src/scripts/interactive.js:603-606 | every stage but the last adds a ContentOut segment |
| Stages.ProgressLifecycle | src/scripts/interactive.js:590-606 | with three or more stages, progress comes in at stage 1 and goes out at stageCount − 2, both stages with bars, and the out-tween's stage has a ContentOut segment |
| Stages.ScrollPromptLifecycle | src/scripts/interactive.js:594-606 | the scroll prompt comes in at stage 0 only; its out-tween runs exactly when there are two or more stages |
| Stages.InBetween | src/scripts/interactive.js:811-822 | the position is defined exactly when the start time is, and lies offset after it; the duration is defined exactly when both times are, and position + duration is the end time |
| Stages.InBetweenTween | src/scripts/interactive.js:811-822 | on a timeline, the tween starts offset after the start label's resolved time and ends on the end label's resolved time; an unresolved start label leaves both undefined, an unresolved end label only the duration |
| Stages.InBetweenEndsOnEndLabel | src/scripts/interactive.js:811-822 | a tween to "end" ends at the timeline's total duration whatever its offset; offsets only move its start |
| Stages.SliceEnd | src/scripts/interactive.js:227 | slice(0, end) keeps min(end, len) items, and for a negative end drops that many from the back |
| Stages.WithoutFocal | src/scripts/interactive.js:224-225 | the shape indices other than the focal one, ascending, each once |
| Stages.ExpandableShapeIndices | src/scripts/interactive.js:224-227 | the selection's length is the slice bound applied to Math.round(shapes · shapeToCount) |
| Stages.ExpandableShapeIndicesValid | src/scripts/interactive.js:224-227 | the selection excludes the focal shape, holds distinct indices below the shape count, and for a non-negative fraction has min(round(n · shapeToCount), non-focal count) entries |
| Stages.ExpandableExample | src/scripts/interactive.js:224-227 | with twenty shapes, focal shape 18 and fraction 0.5, ten shapes expand |
| Seqs.PresentReverse | src/scripts/interactive.js:782-783 | dropping absent entries commutes with reversing |

## Left out

- DOM, fabric.js, SplitText, ScrollTrigger and GSAP calls are not modelled. This covers `setupDynamicContent`, `setupAnimations`, `handleUpdate`, `bustCache`, `handleResize`, `normalizeViewportUnits`, the measuring in `calculateDimensionsAndRatios`, and `qs`, `qsa`, `$on` and `$delegate`. They are effects on objects this model cannot see.
- GSAP's position strings (`"stage0In+=0.25"`, `">+=…"`), `totalDuration()` and the child enumeration order are inputs. The schedule `createTheSacredTimeline` would build, and the snap labels it hoists with `getLabelTime`, are not modelled: that method returns at src/scripts/interactive.js:489.
- `upperCaseFirst` is not used by the modelled helpers, so it is not modelled.
- JavaScript numbers are exact reals, so IEEE rounding in `Math.floor(x * 10^places) / 10^places` and in the label arithmetic is not modelled.
- `Math.random()` draws are parameters. The random-comparator sort is an arbitrary arrangement given as input.
- `randInRange` takes `places` as a natural number. Negative or fractional places are not modelled. A `max` passed as `undefined` takes the default `null`, which `Bounds(min, None)` models.
- Timeline.GetLabelTime: every enumerated descendant must be reachable through non-zero time scales, not only the one the label is found on. A paused descendant (time scale 0) anywhere in the enumeration is outside the model, though the source only divides by the scales on the found node's path. The interactive never sets a time scale.
- Timeline.GetLabelTime: `label in labels` in the source also finds names every JavaScript object inherits (`constructor`, `toString`, …) on the root and returns the inherited function. The model treats label sets as plain maps, so such names resolve through the descendants or to nothing. The interactive only looks up its own stage labels.
- Geometry.Normalize: the source writes the derived fields into the object it is given (when that is not a DOMRect) and returns the same object. The model returns a new record, so the in-place update of the caller's object is not modelled; every caller passes a fresh object.
- StageContent.ContentTweens: the tweens' duration and stagger are carried as configuration values. JavaScript's coercion of a non-numeric stagger in the delay string is not modelled beyond booleans counting as 0 or 1.
- StageContent.ContentTweens: the shared `props` object that the source mutates between calls is modelled as one tween record per call.
- Configuration: the defaults table is modelled. The caller's configuration may also carry keys the table lacks, and the merge keeps them, since `Object.assign` copies every key.
- Stages.ExpandableShapeIndices: a `shapeToCount` that is not a number (NaN bound) is not modelled.
- `stageCount` (5) and the progress-bar elements are parameters of the stage lemmas. The lemmas hold for every stage count.

## Findings

| source | as written | input that shows it | evidently intended | confidence | as-written member | corrected member |
|---|---|---|---|---|---|---|
| src/scripts/interactive.js:790 | the header's letters stagger is read from `headerLettersStagger`, a key the defaults table (src/scripts/interactive.js:80) does not define, so unless a caller sets that undocumented key it falls back to `lettersStagger` | options `{ headingLettersStagger: 0.5 }`: the header still staggers by 0.06 | the header reads `headingLettersStagger`, the key the defaults define for it | medium, not executed | StageContent.LettersStaggerAsWritten, used by StageContent.ContentTweens with the AsWritten lookup (shown by StageContent.HeadingKeyUnread, StageContent.HeadingStaggerIgnored and StageContent.HeadingStaggerExample) | StageContent.LettersStagger, used by StageContent.ContentTweens with the Corrected lookup (proved by StageContent.HeadingKeyRead, StageContent.CorrectionOnlyHeader, StageContent.LettersStaggerResolved and StageContent.HeadingStaggerExample) |

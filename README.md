# Waste detection: classification and sidebar display, in Dafny

This project models the streaming classification and display core of a
waste-detection web app. An object detector reports a set of class names for
each video frame. The app splits each set into three waste categories
(recyclable, non-recyclable, hazardous) using three constant tables. It shows
each non-empty category as a bulleted markdown block in one of three sidebar
slots, and it arms a timer that blanks all three slots three seconds later.
Nothing is re-rendered and no timer is armed while the detected class set
stays the same.

Modules, one per file:

- `common.dfy` (`Common`): the `Option` datatype.
- `settings.dfy` (`Settings`): the three category tables, a per-label lookup
  `CategoryOf`, and facts about the tables. The tables are disjoint, have no
  duplicates, and hold only lower-case labels with underscores.
- `classification.dfy` (`Classification`): `ClassifyWasteType`, which
  intersects the detected set with each table.
- `rendering.dfy` (`Rendering`): the display form of a label (underscores to
  spaces), `"\n- ".join`, and the markdown block of one category. A parser is
  the inverse of the renderer, so a rendered block has exactly one bullet per
  item. `RenderSet` is the generator loop over a Python set. It visits the
  members in an arbitrary order, so a slot's text is specified up to the order
  of its bullets.
- `display.dfy` (`Display`): the session state machine.
  - The pure functions `OnResult`, `OnResults`, `OnFrame`, `OnExpire`,
    `AfterRead` and `Played` describe the abstract state `View`. A `View` holds the stored
    class set, the buckets on show, the time of the last change, and the number
    of armed timers that have not fired yet.
  - The class `Session` holds the concrete fields: the stored set, three
    `Slot`s, the time stamp and the timer count.
  - Each method of `Session` is proved to move its abstract state exactly as
    the matching function says. It also keeps `Valid()`: each slot shows the
    rendering of its bucket, or is blank when the bucket is empty.
  - The lemmas beside the functions state what the app promises: unchanged
    frames change nothing, one timer is armed per change, and an expiry blanks
    everything. They also show a timer clearing a newer display, and a
    multi-result frame leaving a label on show that is no longer in the stored
    set.

Inputs that come from the outside world are parameters:

- each prediction result is a `set<Label>`;
- the current time `now` is an `int`;
- the video source is a sequence of `Read`s. Each one is one of:
  - a `Lost` frame;
  - a `Captured` frame with its list of prediction results (possibly empty)
    and its time;
  - `TimerFired`, an expiry thread firing between two frames;
- the firing of an expiry thread is the `SleepAndClearSuccess` event, which
  may happen only while a timer is pending.

The model follows the code in these points:

- An armed timer is never cancelled or superseded. Every pending timer
  eventually blanks the sidebar, even one armed before a newer change
  (`StaleTimerClearsNewerDisplay`).
- The labels collected within one frame accumulate across that frame's
  prediction results (`detected_items.update`). So with more than one result
  per frame, a slot can show a label from an earlier result that is not in
  the newly stored class set (`TwoResultsShowEarlierLabels`). The invariant
  "the display is empty or shows the partition of the stored set" holds for
  single-result frames and for expiries (`SingleResultFrameKeepsConsistent`,
  `ExpiryKeepsConsistent`).
- An expiry blanks the slots but leaves the stored class set alone. Seeing
  the same items again therefore does not bring the display back.
- A failed inference is not recovered per frame. Any exception inside the
  capture loop ends the loop. This includes a frame whose prediction list is
  empty, because plotting its first result fails
  (`EmptyPredictionEndsLoop`).

## Model

| member | source | states |
|---|---|---|
| Settings.ListedIsMembership | helper.py:22-24 | The recursive membership test used to define the intersections holds exactly when the label is an element of the table, that is, of `set(TABLE)`. |
| Settings.CategoryOf | settings.py:39-70 | A label has a category exactly when some table lists it, and the category returned is one whose table lists it. |
| Settings.TableSizes | settings.py:39-70 | The recyclable, non-recyclable and hazardous tables have 5, 11 and 6 entries. |
| Settings.TablesDisjoint | settings.py:39-70 | No label is listed under two categories. |
| Settings.CategoryIsUnique | settings.py:39-70 | A label listed under categories `c` and `d` has `c == d`: every listed label has exactly one category. |
| Settings.TablesHaveNoDuplicates | settings.py:39-70 | No table lists a label twice. |
| Settings.RecyclableLabelsWellFormed | settings.py:39-45 | Every recyclable label is a non-empty run of lower-case letters and underscores. |
| Settings.NonRecyclableLabelsWellFormed | settings.py:48-60 | Every non-recyclable label is a non-empty run of lower-case letters and underscores. |
| Settings.HazardousLabelsWellFormed | settings.py:63-70 | Every hazardous label is a non-empty run of lower-case letters and underscores. |
| Settings.TableLabelsWellFormed | settings.py:39-70 | Every entry of every table is a well-formed label, so no label contains a space or a line break. |
| Settings.ListedLabelWellFormed | settings.py:39-70 | Any label a table contains is well formed. |
| Settings.ExactMatchExamples | settings.py:43-66 | Matching is exact: "plastic_bottle" is recyclable, "chemical_plastic_bottle" is hazardous, and "plastic_cup" and "plastic_cup_lid" are distinct non-recyclable labels. |
| Settings.SampleLookups | settings.py:39-70 | "battery" is hazardous, "can" recyclable, "plastic_bag" non-recyclable, and "unknown_item" is in no table. |
| Classification.ClassifyWasteType | helper.py:21-26 | A label is in the bucket of a category exactly when it was detected and the recursive membership test finds it in the category's table; `ClassifyMembership` restates this with plain table membership. |
| Classification.ClassifyMembership | helper.py:22-24 | Each bucket is the intersection of the detected set with that category's table: a label is in it if and only if it was detected and the table lists it. |
| Classification.BucketsWithinInputAndTable | helper.py:22-24 | Each bucket is a subset of the detected labels, and every member is listed in its category's table. |
| Classification.BucketsPairwiseDisjoint | helper.py:21-26 | The three returned buckets are pairwise disjoint. |
| Classification.BucketsCoverKnownLabels | helper.py:21-26 | Together the buckets are exactly the detected labels that some table lists: nothing listed is lost and nothing unlisted is added. |
| Classification.UnknownLabelDropped | helper.py:21-26 | A label that no table lists is in no bucket; it is dropped without error. |
| Classification.ClassifyAgreesWithCategoryOf | helper.py:21-26 | For a detected label, membership in the bucket of a category agrees with the independent per-label lookup `CategoryOf`. |
| Classification.ClassifyMonotone | helper.py:22-24 | Detecting more labels never removes a label from a bucket. |
| Classification.ClassifyBattery | helper.py:21-26 | {"battery"} classifies to empty recyclable and non-recyclable buckets and the hazardous bucket {"battery"}. |
| Classification.ClassifyUnknownItem | helper.py:21-26 | {"unknown_item"} classifies to three empty buckets. |
| Rendering.RemoveDashFromClassName | helper.py:29-30 | The display name has the label's length, and each character is the label's character with an underscore replaced by a space. |
| Rendering.RemoveDashLeavesNoUnderscore | helper.py:29-30 | A display name contains no underscore. |
| Rendering.RemoveDashIdempotent | helper.py:29-30 | Applying the replacement twice gives the same result as applying it once. |
| Rendering.RemoveDashCharacterwise | helper.py:29-30 | Any string that matches the label character by character, with underscores read as spaces, is its display name. |
| Rendering.RemoveDashExample | helper.py:30 | "plastic_bottle" is displayed as "plastic bottle". |
| Rendering.RestoreDashes | helper.py:29-30 | The inverse replacement keeps the length and turns each space back into an underscore. |
| Rendering.RemoveDashRoundTrip | helper.py:29-30 | For a well-formed label, restoring underscores in its display name gives the label back. |
| Rendering.RemoveDashInjective | helper.py:29-30 | Two different well-formed labels never share a display name. |
| Rendering.Join | helper.py:69 | `sep.join(items)`, used with `"\n- "` at lines 69, 76 and 83. No contract of its own: `SplitJoin` proves that splitting at the separator inverts it. |
| Rendering.Normalised | helper.py:69 | The display names of a listing, in order, as the generator expression produces them. No contract of its own: `RenderSet` and `RenderedBulletPerItem` state what it yields. |
| Rendering.RenderBucket | helper.py:70-87 | The markdown of one category: the opening `div` with the category's class and heading, the joined display names, and `</div>`, as the f-strings at lines 71, 78 and 85 build it. No contract of its own: `ParseRenderBucket` proves that parsing it gives back exactly the names, one bullet each. |
| Rendering.SplitBullets | helper.py:69 | Splitting at the bullet separator always yields at least one piece. |
| Rendering.SplitBulletsPrefix | helper.py:69 | A leading chunk without line breaks ends up as the start of the first piece after splitting. |
| Rendering.SplitJoin | helper.py:69 | Splitting `"\n- ".join(items)` at the separator gives back the items when none contains a line break. |
| Rendering.ParseBucket | helper.py:70-72 | A block that parses yields at least one bullet. |
| Rendering.ParseRenderBucket | helper.py:68-87 | Parsing the block rendered for a category gives back exactly the display names written into it, one bullet per item, in order. |
| Rendering.EnumerationLength | helper.py:69 | A duplicate-free listing of a set has as many entries as the set. |
| Rendering.RenderedBulletPerItem | helper.py:68-87 | The block rendered for a non-empty bucket parses to exactly as many bullets as the bucket has members, and each member's display name is one of them. |
| Rendering.RenderSet | helper.py:69-73 | The text built by visiting the bucket in some order is the rendering of the display names of a duplicate-free listing of exactly the bucket's members. |
| Display.OnResult | helper.py:56-91 | One prediction result: an unchanged class set changes nothing; a changed one is stored and added to the frame's collection, the collection's classification goes on show, and the time is stamped and one timer armed. No contract of its own: `Session.ShowResult` moves exactly as it says, and `ChangedFrameReplacesDisplay` and `UnchangedResultsChangeNothing` state its two cases. |
| Display.OnResults | helper.py:55-91 | The results of one frame, processed in order, each with the collection left by the one before. No contract of its own: `OneTimerPerChange`, `StoredSetIsLastResult` and `ShownIsCollectedClassification` state what it does. |
| Display.OnFrame | helper.py:52-94 | One frame: its results processed with an empty collection to start. No contract of its own: `Session.DisplayDetectedFrames` moves exactly as it says. |
| Display.OnExpire | helper.py:9-13 | A fired timer: all three slots blank, one fewer pending timer, nothing else changed. No contract of its own: `Session.SleepAndClearSuccess` moves exactly as it says, and `StaleTimerClearsNewerDisplay` shows its effect. |
| Display.Continues | helper.py:93-111 | The events after which the capture loop goes on: a captured frame with at least one result, or a timer firing. No contract of its own: `Processed` is stated in its terms. |
| Display.AfterRead | helper.py:9-13 | The state after an event that lets the loop go on: a frame as `OnFrame` says, or a timer firing as `OnExpire` says while a timer is pending. No contract of its own: `PlayedStep` and `ExpiryDuringPlayKeepsBatteryHidden` use it. |
| Display.Played | helper.py:103-111 | The capture loop on the abstract state: events processed in turn up to the first one that ends the loop. No contract of its own: `Session.PlayWebcam` moves exactly as it says, and `PlayedStep`, `PlayedStopsAtLoopEnd`, `EmptyPredictionEndsLoop` and `FramesShowTableLabels` state its properties. |
| Display.DepictedSlotRendersBucket | helper.py:68-87 | A slot that depicts a non-empty bucket holds a rendering of that bucket. |
| Display.Processed | helper.py:93-111 | The number of events processed completely: every event before it is a captured frame with at least one result or a timer firing; the read at that position, if any, is a lost frame (the loop breaks) or a frame without results (plotting `res[0]` raises, which ends the loop through the `except`). |
| Display.UnchangedResultsChangeNothing | helper.py:57 | Results equal to the stored class set change no field and no slot, arm no timer and collect nothing. |
| Display.RepeatedFrameChangesNothing | helper.py:55-57 | A frame whose class set is the stored one leaves the whole state unchanged. |
| Display.ChangedFrameReplacesDisplay | helper.py:57-91 | A one-result frame whose class set differs from the stored one stores it, shows exactly its classification (an empty category is left blank), stamps the time and arms one timer. |
| Display.StoredSetIsLastResult | helper.py:55-58 | After a non-empty frame the stored class set is the last result's set. |
| Display.OneTimerPerChange | helper.py:57-90 | The number of pending timers grows by exactly the number of results whose set differs from the one before it. |
| Display.ShownIsCollectedClassification | helper.py:52-65 | The labels collected in a frame only grow and come from its results; the buckets on show are either those from before the frame or the classification of everything collected so far. |
| Display.InitialConsistent | helper.py:37-48 | The initial state shows nothing and is consistent with the empty stored set. |
| Display.SingleResultFrameKeepsConsistent | helper.py:55-91 | A one-result frame keeps the display equal to the classification of the stored set, or blank. |
| Display.ExpiryKeepsConsistent | helper.py:9-13 | An expiry leaves the display blank, so it stays consistent. |
| Display.DepictedSlotBulletPerItem | helper.py:68-87 | A slot depicting a non-empty bucket of table labels parses to exactly one bullet per label, each label's display name among them. |
| Display.InitialShowsTableLabels | helper.py:37-48 | Initially no label is on show, so every label on show is listed in its category's table. |
| Display.ResultsShowTableLabels | helper.py:55-87 | Processing results keeps every label on show listed in its category's table. |
| Display.FramesShowTableLabels | helper.py:103-109 | The capture loop keeps every label on show listed in its category's table. |
| Display.ExpiryShowsTableLabels | helper.py:9-13 | An expiry keeps every label on show listed in its category's table. |
| Display.TwoResultsShowEarlierLabels | helper.py:52-65 | Results {"battery"} then {"can"} in one frame store {"can"} but still show "battery" as hazardous, so the display no longer matches the stored set. |
| Display.FirstFrameWithNothingDetected | helper.py:37-57 | On a fresh session a frame with nothing detected changes nothing and arms no timer. |
| Display.BatteryOnFreshSession | helper.py:57-91 | On a fresh session a battery is stored, shown only in the hazardous slot, time-stamped, and one timer is armed. |
| Display.UnknownItemOnFreshSession | helper.py:57-91 | An unknown item is a change (it is stored and one timer is armed) but every slot stays blank. |
| Display.StaleTimerClearsNewerDisplay | helper.py:9-13 | When a change follows another before its timer fires, the first timer blanks the newer display while one timer stays pending; seeing the same items again does not redisplay them. |
| Display.PlayedStopsAtLoopEnd | helper.py:103-111 | Once the loop has stopped, at a lost frame or at a frame without results, later reads have no effect. |
| Display.PlayedStep | helper.py:103-109 | An event that lets the loop go on is processed, and then the rest of the events. |
| Display.ExpiryDuringPlayKeepsBatteryHidden | helper.py:9-13 | A battery frame, then a timer firing, then the same battery frame: the sidebar stays blank, because the repeated class set is no change. |
| Display.EmptyPredictionEndsLoop | helper.py:55-111 | A captured frame with an empty prediction list changes nothing and ends the loop: no frame after it is processed. |
| Display.RenderSlot | helper.py:68-87 | The slot written for a non-empty bucket depicts that bucket. |
| Display.Session.constructor | helper.py:37-48 | A new session has no stored classes, three blank slots, time stamp 0 and no timers. |
| Display.Session.ShowResult | helper.py:56-91 | One result moves the session exactly as `OnResult` says and keeps every slot showing its bucket; an unchanged set modifies nothing. |
| Display.Session.ShowChange | helper.py:58-91 | A changed set is stored and added to the collection, the collection's classification is shown, one timer is armed and the time stamped. |
| Display.Session.SlotHasBulletPerItem | helper.py:59-87 | In a valid session showing table labels, a category with nothing on show has a blank slot, and otherwise its slot parses to exactly as many bullets as the category has labels on show, each label's display name among them. |
| Display.Session.ShowBuckets | helper.py:59-87 | All three slots are blanked first, then each shows its bucket if non-empty; only the slots (and the record of what they show) change. |
| Display.Session.WriteRecyclable | helper.py:68-73 | The blanked recyclable slot stays blank for an empty bucket and otherwise shows its rendering. |
| Display.Session.WriteNonRecyclable | helper.py:75-80 | The blanked non-recyclable slot stays blank for an empty bucket and otherwise shows its rendering. |
| Display.Session.WriteHazardous | helper.py:82-87 | The blanked hazardous slot stays blank for an empty bucket and otherwise shows its rendering. |
| Display.Session.DisplayDetectedFrames | helper.py:33-94 | One frame moves the session exactly as `OnFrame` says, keeps every slot showing its bucket, and modifies nothing if every result equals the stored set; it reports failure exactly when the prediction list is empty, where `res[0]` raises. |
| Display.Session.SleepAndClearSuccess | helper.py:9-13 | A fired timer blanks all three slots whatever they held, and changes nothing else but the count of pending timers. |
| Display.Session.PlayWebcam | helper.py:97-111 | The loop processes captured frames, and timers that fire between them, in order up to the first lost frame or the first frame without results, reports failure exactly in the second case (the `except` branch), and the session ends as `Played` says. |
| Display.ProcessedAt | helper.py:103-111 | When every read before a position lets the loop go on and the read there, if any, stops it, that position is the number of frames processed. |

## Left out

- Model inference (`model.predict`, `model.names`, the 0.6 confidence threshold) and `load_model`: each result is given as its set of class names.
- Frame resizing, drawing boxes and showing the frame (`cv2.resize`, `res[0].plot()`, `st_frame.image`). Their pixels are not modelled. The one effect on control flow is kept: `res[0]` fails for an empty prediction list, which ends the loop.
- The error message shown in the sidebar when the loop ends with an exception: `PlayWebcam` reports that case through its `failed` result.
- Streamlit itself (`st.button`, `st.sidebar`, `unsafe_allow_html`): a slot is modelled as blank or as showing a markdown string, and `.markdown('')` and `.empty()` are both the blank slot.
- Threads and `time.sleep(3)`: an armed thread is a pending-timer count, and its firing is the `SleepAndClearSuccess` event. The event may happen between any two operations while a timer is pending. Interleavings inside an operation and the three-second delay are not modelled.
- Display.Session.PlayWebcam: a timer fires only between two frames, as a `TimerFired` event; its end state (`Played`) does not cover a thread blanking the slots while a frame is being processed. A `TimerFired` event with no timer pending is ignored, because no thread would exist to fire.
- `time.time()`: the time is a parameter.
- The webcam (`cv2.VideoCapture`, `isOpened`, `release`): it is a sequence of reads. Running out of reads stands for the capture being closed.
- Exceptions from the foreign calls inside the `try`/`except` (opening the capture, inference, drawing): these are not modelled. Only the `IndexError` of an empty prediction list is, and it ends the loop.
- The order in which a Python set is iterated: `RenderSet` visits the members in an arbitrary order. A slot is therefore specified up to the order of its bullets.
- `app.py`, `train.py` and the path and model settings: they are outside the classification and display core.

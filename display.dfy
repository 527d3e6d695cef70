/**
 The per-session display state machine: the set of classes last seen, the
 three sidebar slots, the time of the last change, and the expiry timers that
 clear the sidebar. A prediction result changes anything only when its class
 set differs from the stored one; on a change the slots are blanked, the
 non-empty buckets are written, and one clear-all timer is armed.

 The state is abstracted as a `View` value. The pure functions below say how
 each event changes a `View`; the `Session` class holds the concrete fields
 and its methods are proved to follow those functions.
 */
module Display {
  import opened Settings
  import opened Classification
  import opened Rendering

  /** A sidebar placeholder: blank, or showing a block of markdown. */
  datatype Slot = Empty | Showing(text: string)

  /**
   The slot shows `shown` for category `c`: blank when `shown` is empty,
   otherwise the rendering of its members listed in the order `order`.
   */
  ghost predicate Depicts(slot: Slot, c: Category, shown: set<Label>, order: seq<Label>)
  {
    if shown == {} then slot == Empty else slot.Showing? && RendersInOrder(c, shown, order, slot.text)
  }

  /** A non-blank slot that depicts a bucket holds a rendering of that bucket. */
  lemma DepictedSlotRendersBucket(slot: Slot, c: Category, shown: set<Label>, order: seq<Label>)
    requires Depicts(slot, c, shown, order)
    requires shown != {}
    ensures slot.Showing? && Renders(c, shown, slot.text)
  {
  }

  /** Every label on show in a category is listed in that category's table. */
  predicate FromTables(b: Buckets)
  {
    forall c: Category, name :: name in b.Get(c) ==> Listed(Table(c), name)
  }

  /**
   A slot depicting a non-empty bucket of table labels reads back as exactly
   one bullet per label, and every label's display name is one of them.
   */
  lemma DepictedSlotBulletPerItem(slot: Slot, c: Category, shown: set<Label>, order: seq<Label>)
    requires Depicts(slot, c, shown, order)
    requires shown != {}
    requires forall name :: name in shown ==> Listed(Table(c), name)
    ensures slot.Showing? && ParseBucket(c, slot.text).Some?
    ensures |ParseBucket(c, slot.text).value| == |shown|
    ensures forall name :: name in shown ==> RemoveDashFromClassName(name) in ParseBucket(c, slot.text).value
  {
    forall name | name in shown
      ensures '\n' !in name
    {
      ListedIsMembership(Table(c), name);
      ListedLabelWellFormed(c, name);
      assert forall i :: 0 <= i < |name| ==> IsLabelChar(name[i]);
    }
    DepictedSlotRendersBucket(slot, c, shown, order);
    RenderedBulletPerItem(c, shown, slot.text);
  }

  /**
   The abstract session state: the stored class set, the buckets whose
   rendering the three slots hold, the time stamp of the last change, and the
   number of armed expiry timers that have not fired yet.
   */
  datatype View = View(uniqueClasses: set<Label>, shown: Buckets, lastDetectionTime: int, pendingExpiries: nat)

  /** The state set up on the first frame of a session. */
  const InitialView := View({}, NoBuckets, 0, 0)

  /**
   One prediction result with class set `newClasses`, given the labels
   `detected` collected so far in this frame. Returns the new state and the new
   collection.
   */
  function OnResult(v: View, detected: set<Label>, newClasses: set<Label>, now: int): (View, set<Label>)
  {
    if newClasses == v.uniqueClasses then (v, detected)
    else
      var collected := detected + newClasses;
      (View(newClasses, ClassifyWasteType(collected), now, v.pendingExpiries + 1), collected)
  }

  /** The results of one frame, processed in order. */
  function OnResults(v: View, detected: set<Label>, results: seq<set<Label>>, now: int): (View, set<Label>)
    decreases |results|
  {
    if results == [] then (v, detected)
    else
      var (v', detected') := OnResult(v, detected, results[0], now);
      OnResults(v', detected', results[1..], now)
  }

  /** One frame: its results processed with a fresh collection of detected labels. */
  function OnFrame(v: View, results: seq<set<Label>>, now: int): View
  {
    OnResults(v, {}, results, now).0
  }

  /** An expiry timer fires: all three slots go blank; nothing else changes but the timer count. */
  function OnExpire(v: View): View
    requires v.pendingExpiries > 0
  {
    v.(shown := NoBuckets, pendingExpiries := v.pendingExpiries - 1)
  }

  /**
   One event seen by the capture loop: a lost frame, a frame's prediction
   results and its time, or an expiry thread firing between two frames.
   */
  datatype Read = Lost | Captured(results: seq<set<Label>>, now: int) | TimerFired

  /**
   An event after which the capture loop goes on: a captured frame with at
   least one prediction result, or a timer firing. A lost frame ends the loop
   normally; a captured frame with no result ends it with an error, because
   plotting its first result fails.
   */
  predicate Continues(r: Read)
  {
    r.TimerFired? || (r.Captured? && r.results != [])
  }

  /** The state after an event that lets the loop go on. A timer fires only while one is pending. */
  function AfterRead(v: View, r: Read): View
    requires Continues(r)
  {
    match r
    case Captured(results, now) => OnFrame(v, results, now)
    case TimerFired => if v.pendingExpiries > 0 then OnExpire(v) else v
  }

  /** The events up to the first one that ends the loop, each processed in turn. */
  function Played(v: View, captures: seq<Read>): View
    decreases |captures|
  {
    if captures == [] || !Continues(captures[0]) then v
    else Played(AfterRead(v, captures[0]), captures[1..])
  }

  /**
   The number of frames the capture loop processes completely: all reads, or
   those before the first lost frame or the first frame without results.
   */
  function Processed(captures: seq<Read>): (n: nat)
    ensures n <= |captures|
    ensures forall i :: 0 <= i < n ==> Continues(captures[i])
    ensures n < |captures| ==> !Continues(captures[n])
    decreases |captures|
  {
    if captures == [] || !Continues(captures[0]) then 0 else 1 + Processed(captures[1..])
  }

  /** The number of results whose class set differs from the one before it (the first compared with `previous`). */
  function Changes(previous: set<Label>, results: seq<set<Label>>): nat
    decreases |results|
  {
    if results == [] then 0
    else (if results[0] != previous then 1 else 0) + Changes(results[0], results[1..])
  }

  /** Every label of every result. */
  function UnionOf(results: seq<set<Label>>): set<Label>
    decreases |results|
  {
    if results == [] then {} else results[0] + UnionOf(results[1..])
  }

  // ----- Properties of the specification -----

  /** A result equal to the stored class set changes nothing: no slot, no timer, no time stamp. */
  lemma {:induction false} UnchangedResultsChangeNothing(v: View, detected: set<Label>, results: seq<set<Label>>, now: int)
    requires forall i :: 0 <= i < |results| ==> results[i] == v.uniqueClasses
    ensures OnResults(v, detected, results, now) == (v, detected)
    decreases |results|
  {
    if results != [] {
      UnchangedResultsChangeNothing(v, detected, results[1..], now);
    }
  }

  /** In particular a frame whose classes are those already stored leaves the whole state as it was. */
  lemma RepeatedFrameChangesNothing(v: View, newClasses: set<Label>, now: int)
    requires newClasses == v.uniqueClasses
    ensures OnFrame(v, [newClasses], now) == v
  {
    UnchangedResultsChangeNothing(v, {}, [newClasses], now);
  }

  /**
   A single result that differs from the stored set replaces it, shows exactly
   its classification (a category with nothing detected ends blank rather
   than keeping old content), stamps the time and arms one timer.
   */
  lemma ChangedFrameReplacesDisplay(v: View, newClasses: set<Label>, now: int)
    requires newClasses != v.uniqueClasses
    ensures OnFrame(v, [newClasses], now) == View(newClasses, ClassifyWasteType(newClasses), now, v.pendingExpiries + 1)
  {
    var step := OnResult(v, {}, newClasses, now);
    assert {} + newClasses == newClasses;
    assert step == (View(newClasses, ClassifyWasteType(newClasses), now, v.pendingExpiries + 1), newClasses);
    assert [newClasses][1..] == [];
    assert OnResults(v, {}, [newClasses], now) == OnResults(step.0, step.1, [], now);
  }

  /** After a non-empty frame the stored class set is that of its last result. */
  lemma {:induction false} StoredSetIsLastResult(v: View, detected: set<Label>, results: seq<set<Label>>, now: int)
    requires results != []
    ensures OnResults(v, detected, results, now).0.uniqueClasses == results[|results| - 1]
    decreases |results|
  {
    var (v', detected') := OnResult(v, detected, results[0], now);
    assert v'.uniqueClasses == results[0];
    if |results| > 1 {
      StoredSetIsLastResult(v', detected', results[1..], now);
    }
  }

  /** Exactly one expiry timer is armed per change, and none for a result equal to its predecessor. */
  lemma {:induction false} OneTimerPerChange(v: View, detected: set<Label>, results: seq<set<Label>>, now: int)
    ensures OnResults(v, detected, results, now).0.pendingExpiries == v.pendingExpiries + Changes(v.uniqueClasses, results)
    decreases |results|
  {
    if results != [] {
      var (v', detected') := OnResult(v, detected, results[0], now);
      assert v'.uniqueClasses == results[0];
      OneTimerPerChange(v', detected', results[1..], now);
    }
  }

  /**
   Within one frame the labels collected from its results only grow and come
   from those results; the slots either keep what they showed before the frame
   or show the classification of everything collected so far.
   */
  lemma {:induction false} ShownIsCollectedClassification(v: View, detected: set<Label>, results: seq<set<Label>>, now: int)
    ensures detected <= OnResults(v, detected, results, now).1 <= detected + UnionOf(results)
    ensures OnResults(v, detected, results, now) == (v, detected)
         || OnResults(v, detected, results, now).0.shown == ClassifyWasteType(OnResults(v, detected, results, now).1)
    decreases |results|
  {
    if results != [] {
      var (v', detected') := OnResult(v, detected, results[0], now);
      ShownIsCollectedClassification(v', detected', results[1..], now);
    }
  }

  /**
   The display matches the stored class set: it shows the classification of
   that set, or it has been cleared.
   */
  ghost predicate Consistent(v: View)
  {
    v.shown == ClassifyWasteType(v.uniqueClasses) || v.shown == NoBuckets
  }

  /** The initial state is consistent. */
  lemma InitialConsistent()
    ensures Consistent(InitialView)
  {
    assert ClassifyWasteType({}) == NoBuckets;
  }

  /** Frames with a single result, and expiries, keep the display consistent with the stored class set. */
  lemma SingleResultFrameKeepsConsistent(v: View, newClasses: set<Label>, now: int)
    requires Consistent(v)
    ensures Consistent(OnFrame(v, [newClasses], now))
  {
    if newClasses == v.uniqueClasses {
      RepeatedFrameChangesNothing(v, newClasses, now);
    } else {
      ChangedFrameReplacesDisplay(v, newClasses, now);
    }
  }

  lemma ExpiryKeepsConsistent(v: View)
    requires v.pendingExpiries > 0
    ensures Consistent(OnExpire(v))
  {
  }

  /**
   With two results in one frame the collected labels carry over from the
   first to the second: the hazardous slot still shows a battery that the
   stored class set no longer contains.
   */
  lemma TwoResultsShowEarlierLabels(now: int)
    ensures OnFrame(InitialView, [{"battery"}, {"can"}], now).uniqueClasses == {"can"}
    ensures "battery" in OnFrame(InitialView, [{"battery"}, {"can"}], now).shown.hazardous
    ensures !Consistent(OnFrame(InitialView, [{"battery"}, {"can"}], now))
  {
    SampleLookups();
    var v1 := OnResult(InitialView, {}, {"battery"}, now);
    assert v1.1 == {"battery"};
    var v2 := OnResult(v1.0, v1.1, {"can"}, now);
    assert {"battery"} != {"can"} by { assert "can" !in {"battery"}; }
    assert v2.1 == {"battery", "can"};
    assert OnFrame(InitialView, [{"battery"}, {"can"}], now) == v2.0;
    var shown := v2.0.shown;
    assert "battery" in shown.hazardous by {
      ClassifyAgreesWithCategoryOf(v2.1, "battery", Hazardous);
    }
    assert "battery" !in ClassifyWasteType({"can"}).hazardous;
  }

  /** The first frame of a session with nothing detected leaves every slot blank and arms no timer. */
  lemma FirstFrameWithNothingDetected(now: int)
    ensures OnFrame(InitialView, [{}], now) == InitialView
  {
    RepeatedFrameChangesNothing(InitialView, {}, now);
  }

  /** A battery on a fresh session: only the hazardous slot shows it, and one timer is armed. */
  lemma BatteryOnFreshSession(now: int)
    ensures OnFrame(InitialView, [{"battery"}], now) == View({"battery"}, Buckets({}, {}, {"battery"}), now, 1)
  {
    ChangedFrameReplacesDisplay(InitialView, {"battery"}, now);
    ClassifyBattery();
  }

  /** An unknown item is a change (a timer is armed) but every slot stays blank. */
  lemma UnknownItemOnFreshSession(now: int)
    ensures OnFrame(InitialView, [{"unknown_item"}], now) == View({"unknown_item"}, NoBuckets, now, 1)
  {
    ChangedFrameReplacesDisplay(InitialView, {"unknown_item"}, now);
    ClassifyUnknownItem();
  }

  /**
   Timers are never cancelled: when two changes come in quick succession, the
   first change's timer blanks the display of the second while the second's
   timer is still pending; and seeing the same items again does not bring the
   display back, because the stored class set was not cleared.
   */
  lemma StaleTimerClearsNewerDisplay(t1: int, t2: int, t3: int)
    ensures var v := OnExpire(OnFrame(OnFrame(InitialView, [{"battery"}], t1), [{"can"}], t2));
      && v.uniqueClasses == {"can"}
      && v.shown == NoBuckets
      && v.pendingExpiries == 1
      && OnFrame(v, [{"can"}], t3) == v
  {
    BatteryOnFreshSession(t1);
    var v1 := OnFrame(InitialView, [{"battery"}], t1);
    assert {"can"} != {"battery"} by { assert "can" !in {"battery"}; }
    ChangedFrameReplacesDisplay(v1, {"can"}, t2);
    var v := OnExpire(OnFrame(v1, [{"can"}], t2));
    RepeatedFrameChangesNothing(v, {"can"}, t3);
  }

  /** Once the capture loop has stopped, later reads have no effect. */
  lemma {:induction false} PlayedStopsAtLoopEnd(v: View, captures: seq<Read>, extra: seq<Read>)
    requires Processed(captures) < |captures|
    ensures Played(v, captures + extra) == Played(v, captures)
    decreases |captures|
  {
    if Continues(captures[0]) {
      assert (captures + extra)[1..] == captures[1..] + extra;
      PlayedStopsAtLoopEnd(AfterRead(v, captures[0]), captures[1..], extra);
    }
  }

  /**
   A timer firing while the loop runs blanks the sidebar for good: the same
   battery seen again is no change, so it is not shown again.
   */
  lemma ExpiryDuringPlayKeepsBatteryHidden(t1: int, t2: int)
    ensures Played(InitialView, [Captured([{"battery"}], t1), TimerFired, Captured([{"battery"}], t2)])
         == View({"battery"}, NoBuckets, t1, 0)
  {
    var first, second := Captured([{"battery"}], t1), Captured([{"battery"}], t2);
    var v1 := View({"battery"}, Buckets({}, {}, {"battery"}), t1, 1);
    var v2 := View({"battery"}, NoBuckets, t1, 0);
    BatteryOnFreshSession(t1);
    PlayedStep(InitialView, first, [TimerFired, second]);
    assert AfterRead(v1, TimerFired) == v2;
    PlayedStep(v1, TimerFired, [second]);
    RepeatedFrameChangesNothing(v2, {"battery"}, t2);
    PlayedStep(v2, second, []);
    assert [first] + [TimerFired, second] == [first, TimerFired, second];
    assert [TimerFired] + [second] == [TimerFired, second];
  }

  /** An event that lets the loop go on is processed, and then the rest of the events. */
  lemma PlayedStep(v: View, r: Read, rest: seq<Read>)
    requires Continues(r)
    ensures Played(v, [r] + rest) == Played(AfterRead(v, r), rest)
  {
    assert ([r] + rest)[1..] == rest;
  }

  /**
   A captured frame with no prediction result ends the loop: nothing is
   shown for it, and the frames after it are never processed.
   */
  lemma EmptyPredictionEndsLoop(v: View, now: int, rest: seq<Read>)
    ensures Processed([Captured([], now)] + rest) == 0
    ensures Played(v, [Captured([], now)] + rest) == v
  {
    assert ([Captured([], now)] + rest)[0] == Captured([], now);
  }

  /** No bucket is on show initially. */
  lemma InitialShowsTableLabels()
    ensures FromTables(InitialView.shown)
  {
  }

  /** Every result, frame and capture loop keeps the buckets on show drawn from the tables. */
  lemma {:induction false} ResultsShowTableLabels(v: View, detected: set<Label>, results: seq<set<Label>>, now: int)
    requires FromTables(v.shown)
    ensures FromTables(OnResults(v, detected, results, now).0.shown)
    decreases |results|
  {
    if results != [] {
      var (v', detected') := OnResult(v, detected, results[0], now);
      assert FromTables(v'.shown);
      ResultsShowTableLabels(v', detected', results[1..], now);
    }
  }

  lemma {:induction false} FramesShowTableLabels(v: View, captures: seq<Read>)
    requires FromTables(v.shown)
    ensures FromTables(Played(v, captures).shown)
    decreases |captures|
  {
    if captures != [] && Continues(captures[0]) {
      if captures[0].Captured? {
        ResultsShowTableLabels(v, {}, captures[0].results, captures[0].now);
      }
      FramesShowTableLabels(AfterRead(v, captures[0]), captures[1..]);
    }
  }

  lemma ExpiryShowsTableLabels(v: View)
    requires v.pendingExpiries > 0
    ensures FromTables(OnExpire(v).shown)
  {
  }

  // ----- The session object -----

  /** The markdown block written into the slot of category `c` for a non-empty bucket. */
  method RenderSlot(c: Category, bucket: set<Label>) returns (slot: Slot, ghost order: seq<Label>)
    requires bucket != {}
    ensures Depicts(slot, c, bucket, order)
  {
    var text;
    text, order := RenderSet(c, bucket);
    slot := Showing(text);
  }

  /**
   The session state of one streaming run. The fields mirror the session
   entries of the app: the stored class set, the three sidebar placeholders,
   the last detection time, plus the count of armed expiry timers that stand
   in for the clearing threads. The ghost field `shown` records which bucket
   each slot displays.
   */
  class Session {
    var uniqueClasses: set<Label>
    var recyclable: Slot
    var nonRecyclable: Slot
    var hazardous: Slot
    var lastDetectionTime: int
    var pendingExpiries: nat
    ghost var shown: Buckets
    ghost var recyclableOrder: seq<Label>
    ghost var nonRecyclableOrder: seq<Label>
    ghost var hazardousOrder: seq<Label>

    /** Each slot displays the bucket recorded for it, in the order recorded for it. */
    ghost predicate Valid()
      reads this`recyclable, this`nonRecyclable, this`hazardous, this`shown
      reads this`recyclableOrder, this`nonRecyclableOrder, this`hazardousOrder
    {
      RecyclableValid() && NonRecyclableValid() && HazardousValid()
    }

    ghost predicate RecyclableValid()
      reads this`recyclable, this`shown, this`recyclableOrder
    {
      Depicts(recyclable, Recyclable, shown.recyclable, recyclableOrder)
    }

    ghost predicate NonRecyclableValid()
      reads this`nonRecyclable, this`shown, this`nonRecyclableOrder
    {
      Depicts(nonRecyclable, NonRecyclable, shown.nonRecyclable, nonRecyclableOrder)
    }

    ghost predicate HazardousValid()
      reads this`hazardous, this`shown, this`hazardousOrder
    {
      Depicts(hazardous, Hazardous, shown.hazardous, hazardousOrder)
    }

    /** The sidebar slot of category `c`. */
    function SlotOf(c: Category): Slot
      reads this`recyclable, this`nonRecyclable, this`hazardous
    {
      match c
      case Recyclable => recyclable
      case NonRecyclable => nonRecyclable
      case Hazardous => hazardous
    }

    /**
     In a valid session showing table labels (as every reachable one does, by
     `FramesShowTableLabels` and `ExpiryShowsTableLabels`), a category with nothing on show has a blank slot, and
     otherwise its slot reads back as exactly one bullet per label on show,
     each label's display name among them.
     */
    lemma SlotHasBulletPerItem(c: Category)
      requires Valid() && FromTables(shown)
      ensures shown.Get(c) == {} ==> SlotOf(c) == Empty
      ensures shown.Get(c) != {} ==> SlotOf(c).Showing? && ParseBucket(c, SlotOf(c).text).Some?
      ensures shown.Get(c) != {} ==> |ParseBucket(c, SlotOf(c).text).value| == |shown.Get(c)|
      ensures forall name :: name in shown.Get(c) ==> RemoveDashFromClassName(name) in ParseBucket(c, SlotOf(c).text).value
    {
      var order := match c
        case Recyclable => recyclableOrder
        case NonRecyclable => nonRecyclableOrder
        case Hazardous => hazardousOrder;
      assert Depicts(SlotOf(c), c, shown.Get(c), order);
      if shown.Get(c) != {} {
        DepictedSlotBulletPerItem(SlotOf(c), c, shown.Get(c), order);
      }
    }

    /** The abstract state of the session. */
    ghost function CurrentView(): View
      reads this
    {
      View(uniqueClasses, shown, lastDetectionTime, pendingExpiries)
    }

    /** The lazy set-up on first use: no classes stored, blank slots, time stamp 0, no timers. */
    constructor ()
      ensures Valid() && CurrentView() == InitialView
      ensures recyclable == Empty && nonRecyclable == Empty && hazardous == Empty
    {
      uniqueClasses := {};
      recyclable, nonRecyclable, hazardous := Empty, Empty, Empty;
      lastDetectionTime := 0;
      pendingExpiries := 0;
      shown := NoBuckets;
    }

    /**
     One prediction result: unchanged classes leave every field alone; a
     changed set is stored and displayed.
     */
    method ShowResult(newClasses: set<Label>, detected: set<Label>, now: int) returns (collected: set<Label>)
      requires Valid()
      modifies this
      ensures Valid()
      ensures (CurrentView(), collected) == OnResult(old(CurrentView()), detected, newClasses, now)
      ensures newClasses == old(uniqueClasses) ==> unchanged(this)
    {
      ghost var before := CurrentView();
      collected := detected;
      if newClasses != uniqueClasses {
        collected := ShowChange(newClasses, detected, now);
        assert OnResult(before, detected, newClasses, now) == (CurrentView(), collected);
      } else {
        assert OnResult(before, detected, newClasses, now) == (before, detected);
      }
    }

    /**
     A changed class set: store it, add it to the frame's collection, blank
     the slots and show the classification of the collection, arm one timer
     and stamp the time.
     */
    method ShowChange(newClasses: set<Label>, detected: set<Label>, now: int) returns (collected: set<Label>)
      modifies this
      ensures Valid()
      ensures collected == detected + newClasses
      ensures CurrentView() == View(newClasses, ClassifyWasteType(collected), now, old(pendingExpiries) + 1)
    {
      uniqueClasses := newClasses;
      collected := detected + uniqueClasses;
      ShowBuckets(ClassifyWasteType(collected));
      pendingExpiries := pendingExpiries + 1;
      lastDetectionTime := now;
    }

    /**
     Blanks the three slots, then writes each non-empty bucket into its slot;
     a slot whose bucket is empty stays blank.
     */
    method ShowBuckets(buckets: Buckets)
      modifies this`recyclable, this`nonRecyclable, this`hazardous, this`shown
      modifies this`recyclableOrder, this`nonRecyclableOrder, this`hazardousOrder
      ensures Valid() && shown == buckets
    {
      recyclable, nonRecyclable, hazardous := Empty, Empty, Empty;
      shown := buckets;
      WriteRecyclable(buckets.recyclable);
      WriteNonRecyclable(buckets.nonRecyclable);
      WriteHazardous(buckets.hazardous);
    }

    /** The blank recyclable slot shows `bucket` if it has members, and stays blank otherwise. */
    method WriteRecyclable(bucket: set<Label>)
      requires recyclable == Empty
      modifies this`recyclable, this`recyclableOrder
      ensures Depicts(recyclable, Recyclable, bucket, recyclableOrder)
    {
      if bucket != {} {
        recyclable, recyclableOrder := RenderSlot(Recyclable, bucket);
      }
    }

    /** The blank non-recyclable slot shows `bucket` if it has members, and stays blank otherwise. */
    method WriteNonRecyclable(bucket: set<Label>)
      requires nonRecyclable == Empty
      modifies this`nonRecyclable, this`nonRecyclableOrder
      ensures Depicts(nonRecyclable, NonRecyclable, bucket, nonRecyclableOrder)
    {
      if bucket != {} {
        nonRecyclable, nonRecyclableOrder := RenderSlot(NonRecyclable, bucket);
      }
    }

    /** The blank hazardous slot shows `bucket` if it has members, and stays blank otherwise. */
    method WriteHazardous(bucket: set<Label>)
      requires hazardous == Empty
      modifies this`hazardous, this`hazardousOrder
      ensures Depicts(hazardous, Hazardous, bucket, hazardousOrder)
    {
      if bucket != {} {
        hazardous, hazardousOrder := RenderSlot(Hazardous, bucket);
      }
    }

    /**
     One frame: its prediction results in order, with a fresh collection of
     detected labels. `failed` reports that the frame had no result, so
     plotting its first result raises an error after the (empty) loop.
     */
    method DisplayDetectedFrames(results: seq<set<Label>>, now: int) returns (failed: bool)
      requires Valid()
      modifies this
      ensures failed <==> results == []
      ensures Valid()
      ensures CurrentView() == OnFrame(old(CurrentView()), results, now)
      ensures (forall i :: 0 <= i < |results| ==> results[i] == old(uniqueClasses)) ==> unchanged(this)
    {
      var detected: set<Label> := {};
      for i := 0 to |results|
        invariant Valid()
        invariant OnResults(CurrentView(), detected, results[i..], now) == OnResults(old(CurrentView()), {}, results, now)
        invariant (forall j :: 0 <= j < |results| ==> results[j] == old(uniqueClasses)) ==> unchanged(this)
      {
        assert results[i..][1..] == results[i + 1..];
        detected := ShowResult(results[i], detected, now);
      }
      assert results[|results|..] == [];
      failed := |results| == 0;
    }

    /** An expiry timer fires: all three slots are blanked, whatever they held. */
    method SleepAndClearSuccess()
      requires Valid() && pendingExpiries > 0
      modifies this
      ensures Valid()
      ensures CurrentView() == OnExpire(old(CurrentView()))
      ensures recyclable == Empty && nonRecyclable == Empty && hazardous == Empty
    {
      recyclable, nonRecyclable, hazardous := Empty, Empty, Empty;
      shown := NoBuckets;
      pendingExpiries := pendingExpiries - 1;
    }

    /**
     The capture loop: process each captured frame, and each timer that fires
     between frames, in turn; stop at the first lost frame or at the error
     raised by a frame without results. Returns how many events were
     processed completely, and whether the loop ended with that error (which
     the app reports in the sidebar).
     */
    method PlayWebcam(captures: seq<Read>) returns (processed: nat, failed: bool)
      requires Valid()
      modifies this
      ensures Valid()
      ensures processed == Processed(captures)
      ensures failed <==> processed < |captures| && captures[processed].Captured?
      ensures CurrentView() == Played(old(CurrentView()), captures)
    {
      processed := 0;
      failed := false;
      while processed < |captures|
        invariant processed <= |captures|
        invariant !failed
        invariant forall i :: 0 <= i < processed ==> Continues(captures[i])
        invariant Valid()
        invariant Played(CurrentView(), captures[processed..]) == Played(old(CurrentView()), captures)
        decreases |captures| - processed
      {
        match captures[processed]
        case Lost =>
          break;
        case TimerFired =>
          assert captures[processed..][1..] == captures[processed + 1..];
          if pendingExpiries > 0 {
            SleepAndClearSuccess();
          }
          processed := processed + 1;
        case Captured(results, now) =>
          assert captures[processed..][1..] == captures[processed + 1..];
          failed := DisplayDetectedFrames(results, now);
          if failed {
            break;
          }
          processed := processed + 1;
      }
      ProcessedAt(captures, processed);
    }
  }

  /** Where every read before `n` lets the loop go on and read `n` (if any) stops it, `Processed` is `n`. */
  lemma {:induction false} ProcessedAt(captures: seq<Read>, n: nat)
    requires n <= |captures|
    requires forall i :: 0 <= i < n ==> Continues(captures[i])
    requires n < |captures| ==> !Continues(captures[n])
    ensures Processed(captures) == n
    decreases n
  {
    if n > 0 {
      ProcessedAt(captures[1..], n - 1);
    }
  }
}

/**
 Splitting a set of detected labels into the three waste categories by
 intersecting it with each category table. Labels listed in no table are
 dropped without error.
 */
module Classification {
  import opened Common
  import opened Settings

  /** The three category buckets, in the order the classifier returns them. */
  datatype Buckets = Buckets(recyclable: set<Label>, nonRecyclable: set<Label>, hazardous: set<Label>)
  {
    /** The bucket of category `c`. */
    function Get(c: Category): set<Label>
    {
      match c
      case Recyclable => recyclable
      case NonRecyclable => nonRecyclable
      case Hazardous => hazardous
    }

    /** Every label in any of the three buckets. */
    function All(): set<Label>
    {
      recyclable + nonRecyclable + hazardous
    }
  }

  /** Three empty buckets. */
  const NoBuckets := Buckets({}, {}, {})

  /** `set(detected) & set(table)`: the detected labels that `table` contains. */
  function Intersect(detected: set<Label>, table: seq<Label>): set<Label>
  {
    set name | name in detected && Listed(table, name)
  }

  /** The three buckets: the detected labels intersected with each category's table. */
  function ClassifyWasteType(detected: set<Label>): (r: Buckets)
    ensures forall c: Category, name :: name in r.Get(c) <==> name in detected && Listed(Table(c), name)
  {
    Buckets(Intersect(detected, RecyclableLabels), Intersect(detected, NonRecyclableLabels), Intersect(detected, HazardousLabels))
  }

  /**
   A label lands in the bucket of `c` exactly when it was detected and is
   listed under `c`.
   */
  lemma ClassifyMembership(detected: set<Label>, c: Category, name: Label)
    ensures name in ClassifyWasteType(detected).Get(c) <==> name in detected && name in Table(c)
  {
    ListedIsMembership(Table(c), name);
  }

  /** Each bucket is a subset of the input and of its own table. */
  lemma BucketsWithinInputAndTable(detected: set<Label>, c: Category)
    ensures ClassifyWasteType(detected).Get(c) <= detected
    ensures forall name :: name in ClassifyWasteType(detected).Get(c) ==> name in Table(c)
  {
    forall name | name in ClassifyWasteType(detected).Get(c)
      ensures name in Table(c)
    {
      ClassifyMembership(detected, c, name);
    }
  }

  /** Because the tables are disjoint, so are the three buckets. */
  lemma BucketsPairwiseDisjoint(detected: set<Label>)
    ensures ClassifyWasteType(detected).recyclable !! ClassifyWasteType(detected).nonRecyclable
    ensures ClassifyWasteType(detected).recyclable !! ClassifyWasteType(detected).hazardous
    ensures ClassifyWasteType(detected).nonRecyclable !! ClassifyWasteType(detected).hazardous
  {
    var r := ClassifyWasteType(detected);
    forall name | name in detected
      ensures !(name in r.recyclable && name in r.nonRecyclable)
      ensures !(name in r.recyclable && name in r.hazardous)
      ensures !(name in r.nonRecyclable && name in r.hazardous)
    {
      ClassifyMembership(detected, Recyclable, name);
      ClassifyMembership(detected, NonRecyclable, name);
      ClassifyMembership(detected, Hazardous, name);
      TablesDisjoint(name);
    }
  }

  /**
   Together the buckets hold exactly the detected labels that some table
   lists: an unlisted label appears in no bucket, and no listed label is lost.
   */
  lemma BucketsCoverKnownLabels(detected: set<Label>)
    ensures ClassifyWasteType(detected).All() == set name | name in detected && Known(name)
  {
    var r := ClassifyWasteType(detected);
    forall name | name in r.All()
      ensures name in detected && Known(name)
    {
      ClassifyMembership(detected, Recyclable, name);
      ClassifyMembership(detected, NonRecyclable, name);
      ClassifyMembership(detected, Hazardous, name);
    }
    forall name | name in detected && Known(name)
      ensures name in r.All()
    {
      ClassifyMembership(detected, Recyclable, name);
      ClassifyMembership(detected, NonRecyclable, name);
      ClassifyMembership(detected, Hazardous, name);
      if name in RecyclableLabels {
        assert name in r.Get(Recyclable);
      } else if name in NonRecyclableLabels {
        assert name in r.Get(NonRecyclable);
      } else {
        assert name in r.Get(Hazardous);
      }
    }
  }

  /** A label listed in no table is in no bucket. */
  lemma UnknownLabelDropped(detected: set<Label>, name: Label)
    requires !Known(name)
    ensures name !in ClassifyWasteType(detected).All()
  {
    BucketsCoverKnownLabels(detected);
  }

  /**
   The intersection-based classifier agrees with the per-label lookup: a
   detected label sits in the bucket of `c` exactly when its category is `c`.
   */
  lemma ClassifyAgreesWithCategoryOf(detected: set<Label>, name: Label, c: Category)
    requires name in detected
    ensures name in ClassifyWasteType(detected).Get(c) <==> CategoryOf(name) == Some(c)
  {
    ClassifyMembership(detected, c, name);
    if CategoryOf(name) == Some(c) {
      assert name in Table(c);
    }
    if name in Table(c) {
      CategoryIsUnique(name, c, CategoryOf(name).value);
    }
  }

  /** Classification is monotone: more detections never shrink a bucket. */
  lemma ClassifyMonotone(smaller: set<Label>, larger: set<Label>, c: Category)
    requires smaller <= larger
    ensures ClassifyWasteType(smaller).Get(c) <= ClassifyWasteType(larger).Get(c)
  {
  }

  /** A single battery goes to the hazardous bucket and nowhere else. */
  lemma ClassifyBattery()
    ensures ClassifyWasteType({"battery"}) == Buckets({}, {}, {"battery"})
  {
    SampleLookups();
    var r := ClassifyWasteType({"battery"});
    assert "battery" in r.hazardous;
    assert r.recyclable == {} by {
      ClassifyAgreesWithCategoryOf({"battery"}, "battery", Recyclable);
    }
    assert r.nonRecyclable == {} by {
      ClassifyAgreesWithCategoryOf({"battery"}, "battery", NonRecyclable);
    }
  }

  /** A label no table lists produces three empty buckets. */
  lemma ClassifyUnknownItem()
    ensures ClassifyWasteType({"unknown_item"}) == NoBuckets
  {
    SampleLookups();
    UnknownLabelDropped({"unknown_item"}, "unknown_item");
    assert ClassifyWasteType({"unknown_item"}).All() == {};
  }
}

/**
 The static waste-category tables: the class names the detector can report,
 listed under the category they belong to. The tables are constants; nothing
 reassigns them, and the classifier only reads them.
 */
module Settings {
  import opened Common

  /** A detected class name, compared by exact string equality. */
  type Label = string

  /** The three waste categories shown in the sidebar. */
  datatype Category = Recyclable | NonRecyclable | Hazardous

  const RecyclableLabels: seq<Label> := [
    "cardboard_box",
    "can",
    "plastic_bottle_cap",
    "plastic_bottle",
    "reuseable_paper"
  ]

  const NonRecyclableLabels: seq<Label> := [
    "plastic_bag",
    "scrap_paper",
    "stick",
    "plastic_cup",
    "snack_bag",
    "plastic_box",
    "straw",
    "plastic_cup_lid",
    "scrap_plastic",
    "cardboard_bowl",
    "plastic_cultery"
  ]

  const HazardousLabels: seq<Label> := [
    "battery",
    "chemical_spray_can",
    "chemical_plastic_bottle",
    "chemical_plastic_gallon",
    "light_bulb",
    "paint_bucket"
  ]

  /** The table listing the labels of category `c`. */
  function Table(c: Category): seq<Label>
  {
    match c
    case Recyclable => RecyclableLabels
    case NonRecyclable => NonRecyclableLabels
    case Hazardous => HazardousLabels
  }

  /**
   `name` is an element of `table`, written as a recursion over the list. The
   classifier uses it for membership in `set(table)`; `ListedIsMembership`
   shows that it agrees with `in`. The recursion lets the verifier unfold a
   constant table one entry at a time rather than all at once.
   */
  predicate Listed(table: seq<Label>, name: Label)
    decreases |table|
  {
    table != [] && (table[0] == name || Listed(table[1..], name))
  }

  /** The recursive test is exactly sequence membership. */
  lemma {:induction false} ListedIsMembership(table: seq<Label>, name: Label)
    ensures Listed(table, name) <==> name in table
    decreases |table|
  {
    if table != [] {
      ListedIsMembership(table[1..], name);
      assert table == [table[0]] + table[1..];
    }
  }

  /** True iff `name` is listed in some table. */
  predicate Known(name: Label)
  {
    name in RecyclableLabels || name in NonRecyclableLabels || name in HazardousLabels
  }

  /**
   The category a label is listed under, or None for a label in no table.
   This is a per-label lookup, an independent description of the
   classification that the tables induce.
   */
  function CategoryOf(name: Label): (r: Option<Category>)
    ensures r == None <==> !Known(name)
    ensures r.Some? ==> name in Table(r.value)
  {
    if name in RecyclableLabels then Some(Recyclable)
    else if name in NonRecyclableLabels then Some(NonRecyclable)
    else if name in HazardousLabels then Some(Hazardous)
    else None
  }

  /** A character that may occur in a label: a lower-case letter or an underscore. */
  predicate IsLabelChar(ch: char)
  {
    'a' <= ch <= 'z' || ch == '_'
  }

  /** A non-empty string of lower-case letters and underscores (so no space and no line break). */
  predicate WellFormedLabel(name: Label)
  {
    |name| > 0 && forall i :: 0 <= i < |name| ==> IsLabelChar(name[i])
  }

  /** No entry of `s` occurs twice. */
  predicate NoDuplicates(s: seq<Label>)
  {
    forall i, j :: 0 <= i < j < |s| ==> s[i] != s[j]
  }

  lemma TableSizes()
    ensures |Table(Recyclable)| == 5
    ensures |Table(NonRecyclable)| == 11
    ensures |Table(Hazardous)| == 6
  {
  }

  /** No label is listed under two categories. */
  lemma TablesDisjoint(name: Label)
    ensures !(name in RecyclableLabels && name in NonRecyclableLabels)
    ensures !(name in RecyclableLabels && name in HazardousLabels)
    ensures !(name in NonRecyclableLabels && name in HazardousLabels)
  {
  }

  /** A label listed under category `c` is listed under no other category. */
  lemma CategoryIsUnique(name: Label, c: Category, d: Category)
    requires name in Table(c) && name in Table(d)
    ensures c == d
  {
    TablesDisjoint(name);
  }

  lemma TablesHaveNoDuplicates(c: Category)
    ensures NoDuplicates(Table(c))
  {
  }

  /** Every entry of `s` is a well-formed label. */
  predicate AllWellFormed(s: seq<Label>)
  {
    forall i :: 0 <= i < |s| ==> WellFormedLabel(s[i])
  }

  lemma RecyclableLabelsWellFormed()
    ensures AllWellFormed(RecyclableLabels)
  {
  }

  lemma NonRecyclableLabelsWellFormed()
    ensures AllWellFormed(NonRecyclableLabels)
  {
  }

  lemma HazardousLabelsWellFormed()
    ensures AllWellFormed(HazardousLabels)
  {
  }

  /** Every listed label is a non-empty run of lower-case letters and underscores. */
  lemma TableLabelsWellFormed(c: Category)
    ensures AllWellFormed(Table(c))
  {
    match c
    case Recyclable => RecyclableLabelsWellFormed();
    case NonRecyclable => NonRecyclableLabelsWellFormed();
    case Hazardous => HazardousLabelsWellFormed();
  }

  /** The same fact for a label given by value rather than by position. */
  lemma ListedLabelWellFormed(c: Category, name: Label)
    requires name in Table(c)
    ensures WellFormedLabel(name)
  {
    TableLabelsWellFormed(c);
    var i :| 0 <= i < |Table(c)| && Table(c)[i] == name;
  }

  /**
   Membership is exact string equality, not substring matching: a longer
   name that contains a listed one is a different label.
   */
  lemma ExactMatchExamples()
    ensures CategoryOf("plastic_bottle") == Some(Recyclable)
    ensures CategoryOf("chemical_plastic_bottle") == Some(Hazardous)
    ensures CategoryOf("plastic_cup") == Some(NonRecyclable)
    ensures CategoryOf("plastic_cup_lid") == Some(NonRecyclable)
    ensures "plastic_cup" != "plastic_cup_lid"
  {
    assert "plastic_bottle" == RecyclableLabels[3];
    assert "chemical_plastic_bottle" !in RecyclableLabels;
    assert "chemical_plastic_bottle" !in NonRecyclableLabels;
    assert "chemical_plastic_bottle" == HazardousLabels[2];
    assert "plastic_cup" !in RecyclableLabels;
    assert "plastic_cup" == NonRecyclableLabels[3];
    assert "plastic_cup_lid" !in RecyclableLabels;
    assert "plastic_cup_lid" == NonRecyclableLabels[7];
  }

  /** Sample lookups, one per category, and a label listed nowhere. */
  lemma SampleLookups()
    ensures CategoryOf("battery") == Some(Hazardous)
    ensures CategoryOf("can") == Some(Recyclable)
    ensures CategoryOf("plastic_bag") == Some(NonRecyclable)
    ensures CategoryOf("unknown_item") == None
  {
    assert "battery" !in RecyclableLabels;
    assert "battery" !in NonRecyclableLabels;
    assert "battery" == HazardousLabels[0];
    assert "can" == RecyclableLabels[1];
    assert "plastic_bag" !in RecyclableLabels;
    assert "plastic_bag" == NonRecyclableLabels[0];
    assert "unknown_item" !in RecyclableLabels;
    assert "unknown_item" !in NonRecyclableLabels;
    assert "unknown_item" !in HazardousLabels;
  }
}

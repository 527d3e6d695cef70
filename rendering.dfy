/**
 How a non-empty bucket is shown in the sidebar: every label has its
 underscores replaced by spaces, the results are joined into a bulleted list,
 and the list is wrapped in a `div` whose class and heading name the category.
 A parser recovers the bullets, so the rendered text provably carries one
 bullet per item.
 */
module Rendering {
  import opened Common
  import opened Settings

  /** The label with every underscore replaced by a space, as shown to the user. */
  function RemoveDashFromClassName(name: string): (r: string)
    ensures |r| == |name|
    ensures forall i :: 0 <= i < |name| ==> r[i] == (if name[i] == '_' then ' ' else name[i])
  {
    if name == [] then []
    else [if name[0] == '_' then ' ' else name[0]] + RemoveDashFromClassName(name[1..])
  }

  /** The displayed name contains no underscore. */
  lemma RemoveDashLeavesNoUnderscore(name: string)
    ensures '_' !in RemoveDashFromClassName(name)
  {
  }

  /** Replacing underscores twice is the same as replacing them once. */
  lemma RemoveDashIdempotent(name: string)
    ensures RemoveDashFromClassName(RemoveDashFromClassName(name)) == RemoveDashFromClassName(name)
  {
  }

  /** Any string that agrees with the label character by character, underscores read as spaces, is its display form. */
  lemma RemoveDashCharacterwise(name: string, expected: string)
    requires |expected| == |name|
    requires forall i :: 0 <= i < |name| ==> expected[i] == (if name[i] == '_' then ' ' else name[i])
    ensures RemoveDashFromClassName(name) == expected
  {
  }

  /** The example in the app's own comment. */
  lemma RemoveDashExample()
    ensures RemoveDashFromClassName("plastic_bottle") == "plastic bottle"
  {
    RemoveDashCharacterwise("plastic_bottle", "plastic bottle");
  }

  /** Puts the underscores back: the inverse of the display form for labels without spaces. */
  function RestoreDashes(shown: string): (r: string)
    ensures |r| == |shown|
    ensures forall i :: 0 <= i < |shown| ==> r[i] == (if shown[i] == ' ' then '_' else shown[i])
  {
    if shown == [] then []
    else [if shown[0] == ' ' then '_' else shown[0]] + RestoreDashes(shown[1..])
  }

  /**
   A table label has no spaces, so its display form determines it: putting the
   underscores back gives the label again, and two labels never display alike.
   */
  lemma RemoveDashRoundTrip(name: string)
    requires WellFormedLabel(name)
    ensures RestoreDashes(RemoveDashFromClassName(name)) == name
  {
    var shown := RemoveDashFromClassName(name);
    var back := RestoreDashes(shown);
    forall i | 0 <= i < |name|
      ensures back[i] == name[i]
    {
      assert IsLabelChar(name[i]);
    }
  }

  /** Two different table labels never display alike. */
  lemma RemoveDashInjective(a: string, b: string)
    requires WellFormedLabel(a) && WellFormedLabel(b)
    requires RemoveDashFromClassName(a) == RemoveDashFromClassName(b)
    ensures a == b
  {
    RemoveDashRoundTrip(a);
    RemoveDashRoundTrip(b);
  }

  /** The separator between bullets: a line break followed by a list marker. */
  const Bullet: string := "\n- "

  /** `sep.join(items)`: the items with `sep` between consecutive ones. */
  function Join(items: seq<string>, sep: string): string
  {
    if |items| == 0 then ""
    else if |items| == 1 then items[0]
    else items[0] + sep + Join(items[1..], sep)
  }

  /** Splits `s` at every occurrence of the bullet separator; the inverse of `Join(_, Bullet)`. */
  function SplitBullets(s: string): (r: seq<string>)
    ensures |r| >= 1
    decreases |s|
  {
    if |s| == 0 then [""]
    else if |s| >= 3 && s[..3] == Bullet then [""] + SplitBullets(s[3..])
    else
      var rest := SplitBullets(s[1..]);
      [[s[0]] + rest[0]] + rest[1..]
  }

  /** A chunk without line breaks is glued onto the first piece of whatever follows it. */
  lemma {:induction false} SplitBulletsPrefix(w: string, t: string)
    requires '\n' !in w
    ensures SplitBullets(w + t) == [w + SplitBullets(t)[0]] + SplitBullets(t)[1..]
    decreases |w|
  {
    var r := SplitBullets(t);
    if w != [] {
      var s := w + t;
      assert s[0] == w[0] && w[0] != '\n';
      assert |s| >= 3 ==> s[..3][0] == w[0];
      assert s[1..] == w[1..] + t;
      SplitBulletsPrefix(w[1..], t);
      assert [s[0]] + (w[1..] + r[0]) == w + r[0];
    } else {
      assert w + t == t;
      assert w + r[0] == r[0];
      assert [r[0]] + r[1..] == r;
    }
  }

  /** Joining items without line breaks and splitting the result gives the items back. */
  lemma {:induction false} SplitJoin(items: seq<string>)
    requires |items| >= 1
    requires forall i :: 0 <= i < |items| ==> '\n' !in items[i]
    ensures SplitBullets(Join(items, Bullet)) == items
    decreases |items|
  {
    if |items| == 1 {
      SplitBulletsPrefix(items[0], "");
      assert items[0] + "" == items[0];
      assert SplitBullets("") == [""];
    } else {
      var rest := Join(items[1..], Bullet);
      assert Join(items, Bullet) == items[0] + (Bullet + rest);
      SplitBulletsPrefix(items[0], Bullet + rest);
      assert (Bullet + rest)[..3] == Bullet;
      assert (Bullet + rest)[3..] == rest;
      assert SplitBullets(Bullet + rest) == [""] + SplitBullets(rest);
      assert items[0] + "" == items[0];
      SplitJoin(items[1..]);
      assert items == [items[0]] + items[1..];
    }
  }

  /** The CSS class the sidebar block carries, one per category. */
  function CssClass(c: Category): string
  {
    match c
    case Recyclable => "stRecyclable"
    case NonRecyclable => "stNonRecyclable"
    case Hazardous => "stHazardous"
  }

  /** The heading word of the sidebar block. */
  function Heading(c: Category): string
  {
    match c
    case Recyclable => "Recyclable"
    case NonRecyclable => "Non-Recyclable"
    case Hazardous => "Hazardous"
  }

  /** Everything before the first item: the opening tag, the heading and the first list marker. */
  function Opening(c: Category): string
  {
    "<div class='" + CssClass(c) + "'>" + Heading(c) + " items:\n\n- "
  }

  const Closing: string := "</div>"

  /** The markdown written into a category's sidebar slot for the given display names. */
  function RenderBucket(c: Category, shownNames: seq<string>): string
  {
    Opening(c) + Join(shownNames, Bullet) + Closing
  }

  /**
   Reads a slot's text back: checks the opening and closing of category `c`
   and splits what lies between into bullets; None if the frame does not match.
   */
  function ParseBucket(c: Category, text: string): (r: Option<seq<string>>)
    ensures r.Some? ==> |r.value| >= 1
  {
    var open := Opening(c);
    if |text| >= |open| + |Closing| && text[..|open|] == open && text[|text| - |Closing|..] == Closing
    then Some(SplitBullets(text[|open|..|text| - |Closing|]))
    else None
  }

  /**
   Rendering then parsing gives back the display names, one bullet per item,
   as long as no name contains a line break.
   */
  lemma ParseRenderBucket(c: Category, shownNames: seq<string>)
    requires |shownNames| >= 1
    requires forall i :: 0 <= i < |shownNames| ==> '\n' !in shownNames[i]
    ensures ParseBucket(c, RenderBucket(c, shownNames)) == Some(shownNames)
  {
    var open := Opening(c);
    var body := Join(shownNames, Bullet);
    var text := RenderBucket(c, shownNames);
    assert text == open + body + Closing;
    assert text[..|open|] == open;
    assert text[|text| - |Closing|..] == Closing;
    assert text[|open|..|text| - |Closing|] == body;
    SplitJoin(shownNames);
  }

  /** The display names of `order`, in that order. */
  function Normalised(order: seq<Label>): (r: seq<string>)
  {
    seq(|order|, i requires 0 <= i < |order| => RemoveDashFromClassName(order[i]))
  }

  /** `order` lists every member of `bucket` exactly once, in some order. */
  ghost predicate Enumerates(order: seq<Label>, bucket: set<Label>)
  {
    (forall name :: name in order <==> name in bucket) &&
    (forall i, j :: 0 <= i < j < |order| ==> order[i] != order[j])
  }

  /** An enumeration has as many entries as the set it enumerates. */
  lemma {:induction false} EnumerationLength(order: seq<Label>, bucket: set<Label>)
    requires Enumerates(order, bucket)
    ensures |order| == |bucket|
    decreases |order|
  {
    if order != [] {
      var last := order[|order| - 1];
      var init := order[..|order| - 1];
      assert order == init + [last];
      forall name ensures name in init <==> name in bucket - {last} {
        if name in init {
          var i :| 0 <= i < |init| && init[i] == name;
          assert order[i] == name && i < |order| - 1;
        }
      }
      EnumerationLength(init, bucket - {last});
    } else {
      assert forall name :: name !in bucket;
      assert bucket == {};
    }
  }

  /** `text` is the rendering of the display names of `bucket` for category `c`, listed in the order `order`. */
  ghost predicate RendersInOrder(c: Category, bucket: set<Label>, order: seq<Label>, text: string)
  {
    Enumerates(order, bucket) && text == RenderBucket(c, Normalised(order))
  }

  /**
   `text` is what the sidebar shows for `bucket` in category `c`: the rendering
   of the bucket's display names in some order. The order is not fixed because
   the items come from iterating a set.
   */
  ghost predicate Renders(c: Category, bucket: set<Label>, text: string)
  {
    exists order :: RendersInOrder(c, bucket, order, text)
  }

  /**
   The rendered text of a non-empty bucket of table labels has exactly one
   bullet per item, and every item of the bucket appears as a bullet under
   its display name.
   */
  lemma RenderedBulletPerItem(c: Category, bucket: set<Label>, text: string)
    requires Renders(c, bucket, text)
    requires bucket != {}
    requires forall name :: name in bucket ==> '\n' !in name
    ensures ParseBucket(c, text).Some?
    ensures |ParseBucket(c, text).value| == |bucket|
    ensures forall name :: name in bucket ==> RemoveDashFromClassName(name) in ParseBucket(c, text).value
  {
    var order :| RendersInOrder(c, bucket, order, text);
    EnumerationLength(order, bucket);
    var shownNames := Normalised(order);
    forall i | 0 <= i < |shownNames|
      ensures '\n' !in shownNames[i]
    {
      assert order[i] in bucket;
    }
    ParseRenderBucket(c, shownNames);
    forall name | name in bucket
      ensures RemoveDashFromClassName(name) in shownNames
    {
      var i :| 0 <= i < |order| && order[i] == name;
      assert shownNames[i] == RemoveDashFromClassName(name);
    }
  }

  /**
   Builds the sidebar text of a bucket, visiting its members in an arbitrary
   order as iterating a set does, and normalising each one.
   */
  method RenderSet(c: Category, bucket: set<Label>) returns (text: string, ghost order: seq<Label>)
    ensures RendersInOrder(c, bucket, order, text)
    ensures Renders(c, bucket, text)
  {
    var remaining := bucket;
    order := [];
    var shownNames: seq<string> := [];
    while remaining != {}
      invariant remaining <= bucket
      invariant forall name :: name in bucket <==> name in order || name in remaining
      invariant forall name :: name in order ==> name !in remaining
      invariant forall i, j :: 0 <= i < j < |order| ==> order[i] != order[j]
      invariant shownNames == Normalised(order)
      decreases remaining
    {
      var name :| name in remaining;
      order := order + [name];
      shownNames := shownNames + [RemoveDashFromClassName(name)];
      remaining := remaining - {name};
    }
    text := Opening(c) + Join(shownNames, Bullet) + Closing;
    assert RendersInOrder(c, bucket, order, text);
  }
}

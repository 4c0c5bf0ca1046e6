/**
 * The event-type legend and the filter it drives. The legend lists the
 * pseudo-category 全部 ("all") followed by every distinct event type in the
 * order it first occurs in the data; each entry carries a colour swatch.
 * Clicking an entry makes it the only active one and shows or hides every
 * event marker; hovering a marker enlarges it.
 */
module Legend {
  import opened Text
  import opened Timeline
  import opened Palette

  /** The pseudo-category that selects every event. */
  const AllEntry: string := "全部"

  predicate NoDuplicates(xs: seq<string>)
  {
    forall i, j :: 0 <= i < j < |xs| ==> xs[i] != xs[j]
  }

  /** Index of the first occurrence of `x` in `xs`. */
  function FirstIndex(xs: seq<string>, x: string): (k: nat)
    requires x in xs
    ensures k < |xs| && xs[k] == x
    ensures forall j :: 0 <= j < k ==> xs[j] != x
  {
    if xs[0] == x then 0 else 1 + FirstIndex(xs[1..], x)
  }

  /** Dropping the last element does not move the first occurrence of anything that occurs earlier. */
  lemma FirstIndexInit(xs: seq<string>, x: string)
    requires |xs| > 0 && x in xs[..|xs| - 1]
    ensures FirstIndex(xs, x) == FirstIndex(xs[..|xs| - 1], x)
  {
    var init := xs[..|xs| - 1];
    var k1, k2 := FirstIndex(xs, x), FirstIndex(init, x);
    assert xs[k2] == x;
  }

  /**
   * `Array.from(new Set(xs))`: each element once, in the order of its first
   * occurrence. Built as the set is, by adding the elements one by one and
   * skipping those already present.
   */
  function Distinct(xs: seq<string>): (r: seq<string>)
    ensures forall x :: x in r <==> x in xs
    ensures NoDuplicates(r)
    ensures forall i, j :: 0 <= i < j < |r| ==> FirstIndex(xs, r[i]) < FirstIndex(xs, r[j])
  {
    if xs == [] then []
    else
      var init, last := xs[..|xs| - 1], xs[|xs| - 1];
      assert xs == init + [last];
      var p := Distinct(init);
      forall x | x in p ensures FirstIndex(xs, x) == FirstIndex(init, x) && FirstIndex(xs, x) < |init| {
        FirstIndexInit(xs, x);
      }
      if last in p then p
      else
        assert FirstIndex(xs, last) == |init|;
        p + [last]
  }

  /** The `type` field of every event, in order. */
  function Kinds(es: seq<Event>): (ks: seq<string>)
    ensures |ks| == |es|
    ensures forall i :: 0 <= i < |es| ==> ks[i] == es[i].kind
  {
    seq(|es|, i requires 0 <= i < |es| => es[i].kind)
  }

  /**
   * `["全部"].concat(uniqueEventTypes)` over ALL events, not only the
   * rendered ones: 全部 first, then each event type exactly once, in the
   * order of first occurrence.
   */
  function LegendData(es: seq<Event>): (r: seq<string>)
    ensures |r| >= 1 && r[0] == AllEntry
    ensures forall e :: e in es ==> e.kind in r[1..]
    ensures forall k :: k in r[1..] ==> exists e :: e in es && e.kind == k
    ensures NoDuplicates(r[1..])
    ensures forall i :: 1 <= i < |r| ==> r[i] in Kinds(es)
    ensures forall i, j :: 1 <= i < j < |r| ==> FirstIndex(Kinds(es), r[i]) < FirstIndex(Kinds(es), r[j])
  {
    var kinds := Kinds(es);
    var types := Distinct(kinds);
    forall e | e in es ensures e.kind in types {
      var i :| 0 <= i < |es| && es[i] == e;
      assert kinds[i] == e.kind;
    }
    forall k | k in types ensures exists e :: e in es && e.kind == k {
      var i :| 0 <= i < |kinds| && kinds[i] == k;
      assert es[i] in es;
    }
    var r := [AllEntry] + types;
    assert r[1..] == types;
    r
  }

  /** The swatch colour of a legend entry: light gray for 全部, the event-type colour otherwise. */
  function SwatchColor(entry: string): (c: Color)
    ensures c == LightGray <==> entry == AllEntry
    ensures entry != AllEntry ==> c == EventTypeColor(entry)
  {
    if entry == AllEntry then LightGray else EventTypeColor(entry)
  }

  /**
   * Every rendered marker's type has a legend entry, and that entry's
   * swatch shows the marker's own colour (unless the type is literally
   * 全部, whose swatch is light gray while its markers are black).
   */
  lemma MarkerHasMatchingSwatch(es: seq<Event>, sc: YearScale, e: Event)
    requires e in RenderedEvents(es, sc) && e.kind != AllEntry
    ensures exists k :: 1 <= k < |LegendData(es)| && LegendData(es)[k] == e.kind
                        && SwatchColor(LegendData(es)[k]) == MarkerFill(e)
  {
    var r := LegendData(es);
    assert e.kind in r[1..];
    var k :| 0 <= k < |r[1..]| && r[1..][k] == e.kind;
    assert r[k + 1] == e.kind;
  }

  // ----- the click filter -----

  /**
   * A marker of type `kind` is displayed after `selected` is clicked: always
   * for 全部, otherwise exactly when the clicked text occurs in the type.
   */
  function Visible(selected: string, kind: string): (b: bool)
    ensures b <==> selected == AllEntry || exists i :: OccursAt(kind, selected, i)
    ensures b && selected != AllEntry ==> |selected| <= |kind|
  {
    selected == AllEntry || Contains(kind, selected)
  }

  /** Active flags with only entry `k` set. */
  function ActiveFlags(n: nat, k: nat): (flags: seq<bool>)
    ensures |flags| == n
  {
    seq(n, i => i == k)
  }

  /** Display flags of the markers after `selected` is clicked. */
  function DisplayFlags(selected: string, kinds: seq<string>): (flags: seq<bool>)
    ensures |flags| == |kinds|
  {
    seq(|kinds|, i requires 0 <= i < |kinds| => Visible(selected, kinds[i]))
  }

  /** The number of set flags. */
  function CountTrue(bs: seq<bool>): (c: nat)
    ensures c <= |bs|
  {
    if bs == [] then 0 else CountTrue(bs[..|bs| - 1]) + (if bs[|bs| - 1] then 1 else 0)
  }

  /** After a click exactly one legend entry is active, the clicked one. */
  lemma {:induction false} ExactlyOneActive(n: nat, k: nat)
    requires k < n
    ensures |ActiveFlags(n, k)| == n && ActiveFlags(n, k)[k]
    ensures CountTrue(ActiveFlags(n, k)) == 1
  {
    if n - 1 == k {
      NoneActive(k, k);
      assert ActiveFlags(n, k)[..n - 1] == ActiveFlags(k, k);
    } else {
      ExactlyOneActive(n - 1, k);
      assert ActiveFlags(n, k)[..n - 1] == ActiveFlags(n - 1, k);
    }
  }

  lemma {:induction false} NoneActive(n: nat, k: nat)
    requires n <= k
    ensures CountTrue(ActiveFlags(n, k)) == 0
  {
    if n > 0 {
      NoneActive(n - 1, k);
      assert ActiveFlags(n, k)[..n - 1] == ActiveFlags(n - 1, k);
    }
  }

  /**
   * What a click shows. Clicking 全部 (always entry 0) shows every marker;
   * clicking any entry shows every marker of exactly that type; and a marker
   * whose type does not contain the clicked entry's text is hidden.
   * Matching is by substring, not equality: clicking 战争 also shows a
   * marker of type 战争/政治.
   */
  lemma ClickSelects(es: seq<Event>, sc: YearScale, k: nat)
    requires k < |LegendData(es)|
    ensures var kinds := Kinds(RenderedEvents(es, sc));
      var flags := DisplayFlags(LegendData(es)[k], kinds);
      && |flags| == |RenderedEvents(es, sc)|
      && (k == 0 ==> forall i :: 0 <= i < |flags| ==> flags[i])
      && (forall i :: 0 <= i < |flags| && kinds[i] == LegendData(es)[k] ==> flags[i])
      && (forall i :: (0 <= i < |flags| && LegendData(es)[k] != AllEntry
                       && !Contains(kinds[i], LegendData(es)[k])) ==> !flags[i])
      && (forall i :: 0 <= i < |flags| ==>
            (flags[i] <==> (LegendData(es)[k] == AllEntry || Contains(kinds[i], LegendData(es)[k]))))
  {
    var kinds := Kinds(RenderedEvents(es, sc));
    var selected := LegendData(es)[k];
    var flags := DisplayFlags(selected, kinds);
    forall i | 0 <= i < |flags|
      ensures flags[i] <==> (selected == AllEntry || Contains(kinds[i], selected))
    {
      assert flags[i] == Visible(selected, kinds[i]);
    }
  }

  /**
   * The interactive state of the rendered legend and markers: the legend
   * entries with their `active` class, and for each rendered marker its type,
   * whether it is displayed (`display` null rather than "none") and its radius.
   */
  class LegendView {
    const entries: seq<string>
    const markerKinds: seq<string>
    var active: seq<bool>
    var shown: seq<bool>
    var radius: seq<int>

    ghost predicate Valid()
      reads this
    {
      && |entries| >= 1
      && |active| == |entries|
      && |shown| == |markerKinds|
      && |radius| == |markerKinds|
    }

    /**
     * The state right after rendering: the legend of all events, one marker
     * per rendered event drawn with radius 5 and displayed, and the first
     * entry (全部) active.
     */
    constructor (es: seq<Event>, sc: YearScale)
      ensures Valid()
      ensures entries == LegendData(es)
      ensures markerKinds == Kinds(RenderedEvents(es, sc))
      ensures active == ActiveFlags(|entries|, 0) && CountTrue(active) == 1
      ensures forall i :: 0 <= i < |shown| ==> shown[i]
      ensures forall i :: 0 <= i < |radius| ==> radius[i] == 5
    {
      entries := LegendData(es);
      markerKinds := Kinds(RenderedEvents(es, sc));
      new;
      active := ActiveFlags(|entries|, 0);
      shown := seq(|markerKinds|, _ => true);
      radius := seq(|markerKinds|, _ => 5);
      ExactlyOneActive(|entries|, 0);
    }

    /**
     * The click handler of entry `k`: clear `active` on every entry, set it
     * on the clicked one, then set every marker's display from the clicked
     * entry's text.
     */
    method Click(k: nat)
      requires Valid() && k < |entries|
      modifies this
      ensures Valid()
      ensures active == ActiveFlags(|entries|, k) && CountTrue(active) == 1
      ensures shown == DisplayFlags(entries[k], markerKinds)
      ensures radius == old(radius)
    {
      var i := 0;
      while i < |active|
        invariant 0 <= i <= |active| == |entries|
        invariant forall j :: 0 <= j < i ==> !active[j]
        invariant shown == old(shown) && radius == old(radius)
      {
        active := active[i := false];
        i := i + 1;
      }
      active := active[k := true];
      var m := 0;
      while m < |markerKinds|
        invariant 0 <= m <= |markerKinds| == |shown|
        invariant forall j :: 0 <= j < m ==> shown[j] == Visible(entries[k], markerKinds[j])
        invariant active == ActiveFlags(|entries|, k) && radius == old(radius)
      {
        shown := shown[m := Visible(entries[k], markerKinds[m])];
        m := m + 1;
      }
      ExactlyOneActive(|entries|, k);
    }

    /** `mouseover` on marker `i`: radius 8, whatever it was. */
    method MouseOver(i: nat)
      requires Valid() && i < |radius|
      modifies this
      ensures Valid()
      ensures radius == old(radius)[i := 8]
      ensures active == old(active) && shown == old(shown)
    {
      radius := radius[i := 8];
    }

    /** `mouseout` on marker `i`: radius back to 5, whatever it was. */
    method MouseOut(i: nat)
      requires Valid() && i < |radius|
      modifies this
      ensures Valid()
      ensures radius == old(radius)[i := 5]
      ensures active == old(active) && shown == old(shown)
    {
      radius := radius[i := 5];
    }
  }
}

/** features-detailed.js: the exclusive accordion of the domains list (a click
    closes every item and reopens the clicked one only if it was closed; the
    first item is opened on load) and the one-way reveal of detail items and
    flow steps (hidden on load, shown when they intersect the viewport, never
    hidden again). */
module FeaturesDetailed {

  // ---------------------------------------------------------------------------
  // Accordion
  // ---------------------------------------------------------------------------

  /** The number of open items. */
  function ActiveCount(s: seq<bool>): nat {
    if s == [] then 0 else (if s[0] then 1 else 0) + ActiveCount(s[1..])
  }

  /** The items' `active` flags after a click on the header of item `clicked`. */
  function AfterClick(items: seq<bool>, clicked: nat): (r: seq<bool>)
    requires clicked < |items|
    ensures |r| == |items|
    ensures ActiveCount(r) <= 1 && (r[clicked] <==> !items[clicked])
  {
    var after := seq(|items|, i => i == clicked && !items[clicked]);
    CountOnlyAt(after, clicked);
    after
  }

  /** The flags on load: the page's own, plus the first header's item opened
      when there is a header (the others are not closed). */
  function DefaultOpen(initial: seq<bool>, headerItem: seq<nat>): seq<bool>
    requires forall h :: 0 <= h < |headerItem| ==> headerItem[h] < |initial|
  {
    if |headerItem| > 0 then initial[headerItem[0] := true] else initial
  }

  lemma {:induction false} CountOnlyAt(s: seq<bool>, c: nat)
    requires c < |s|
    requires forall i :: 0 <= i < |s| && i != c ==> !s[i]
    ensures ActiveCount(s) == if s[c] then 1 else 0
  {
    if c == 0 {
      NoneActive(s[1..]);
    } else {
      CountOnlyAt(s[1..], c - 1);
    }
  }

  lemma {:induction false} NoneActive(s: seq<bool>)
    requires forall i :: 0 <= i < |s| ==> !s[i]
    ensures ActiveCount(s) == 0
  {
    if s != [] {
      NoneActive(s[1..]);
    }
  }

  /** After any click at most one item is open: none if the clicked item was
      open, exactly the clicked one if it was closed. */
  lemma ClickLeavesAtMostOne(items: seq<bool>, clicked: nat)
    requires clicked < |items|
    ensures ActiveCount(AfterClick(items, clicked)) <= 1
    ensures items[clicked] ==> ActiveCount(AfterClick(items, clicked)) == 0
    ensures !items[clicked] ==>
      ActiveCount(AfterClick(items, clicked)) == 1 && AfterClick(items, clicked)[clicked]
  {
    CountOnlyAt(AfterClick(items, clicked), clicked);
  }

  /** Clicking the same header twice gives the clicked item back its open
      state and leaves every other item closed; after a click on another
      header, only that header's item is open. */
  lemma ClickSequences(items: seq<bool>, c: nat, d: nat)
    requires c < |items| && d < |items|
    ensures AfterClick(AfterClick(items, c), c) == seq(|items|, i => i == c && items[c])
    ensures c != d ==> AfterClick(AfterClick(items, c), d) == seq(|items|, i => i == d)
  {
  }

  /** The first header's item is open on load; if the page opened none, it is
      the only open one. */
  lemma DefaultOpenFirst(initial: seq<bool>, headerItem: seq<nat>)
    requires forall h :: 0 <= h < |headerItem| ==> headerItem[h] < |initial|
    requires |headerItem| > 0
    ensures DefaultOpen(initial, headerItem)[headerItem[0]]
    ensures ActiveCount(initial) == 0 ==> ActiveCount(DefaultOpen(initial, headerItem)) == 1
  {
    if ActiveCount(initial) == 0 {
      forall i | 0 <= i < |initial|
        ensures !initial[i]
      {
        if initial[i] {
          SomeActive(initial, i);
        }
      }
      CountOnlyAt(DefaultOpen(initial, headerItem), headerItem[0]);
    }
  }

  lemma {:induction false} SomeActive(s: seq<bool>, i: nat)
    requires i < |s| && s[i]
    ensures ActiveCount(s) >= 1
  {
    if i > 0 {
      SomeActive(s[1..], i - 1);
    }
  }

  class Accordion {
    /** The `active` class of each `.accordion-item`. */
    const items: array<bool>
    /** For each `.accordion-header`, the item it sits in. */
    const headerItem: seq<nat>

    ghost predicate Valid()
      reads this
    {
      forall h :: 0 <= h < |headerItem| ==> headerItem[h] < items.Length
    }

    constructor (initial: seq<bool>, headerItem: seq<nat>)
      requires forall h :: 0 <= h < |headerItem| ==> headerItem[h] < |initial|
      ensures Valid() && this.headerItem == headerItem
      ensures items[..] == DefaultOpen(initial, headerItem)
      ensures fresh(items)
    {
      this.headerItem := headerItem;
      items := new bool[|initial|](i requires 0 <= i < |initial| => initial[i]);
      new;
      if |headerItem| > 0 {
        items[headerItem[0]] := true;
      }
    }

    /** The click handler of header h. */
    method Click(h: nat)
      requires Valid() && h < |headerItem|
      modifies items
      ensures items[..] == AfterClick(old(items[..]), headerItem[h])
    {
      var item := headerItem[h];
      var isActive := items[item];
      var i := 0;
      while i < items.Length
        invariant 0 <= i <= items.Length
        invariant forall j :: 0 <= j < i ==> !items[j]
      {
        items[i] := false;
        i := i + 1;
      }
      if !isActive {
        items[item] := true;
      }
    }
  }

  // ---------------------------------------------------------------------------
  // One-way reveal
  // ---------------------------------------------------------------------------

  /** The inline opacity and transform of an element. */
  datatype Style = Style(opacity: string, transform: string)

  const DetailHidden: Style := Style("0", "translateY(30px)")
  const DetailShown: Style := Style("1", "translateY(0)")
  const FlowHidden: Style := Style("0", "scale(0.8)")
  const FlowShown: Style := Style("1", "scale(1)")

  /** One intersection-observer entry: which element, and whether it is in view. */
  datatype Entry = Entry(target: nat, isIntersecting: bool)

  predicate Targets(entries: seq<Entry>, n: nat) {
    forall k :: 0 <= k < |entries| ==> entries[k].target < n
  }

  /** The styles after the observer callback has handled `entries` in order:
      each intersecting entry sets its element to the shown style. */
  function ApplyEntries(styles: seq<Style>, entries: seq<Entry>, shown: Style): (r: seq<Style>)
    requires Targets(entries, |styles|)
    ensures |r| == |styles|
    ensures forall i :: 0 <= i < |styles| && styles[i] == shown ==> r[i] == shown
  {
    if entries == [] then styles
    else
      var prev := ApplyEntries(styles, entries[..|entries| - 1], shown);
      var e := entries[|entries| - 1];
      if e.isIntersecting then prev[e.target := shown] else prev
  }

  /** An element ends up shown exactly when it was shown already or some
      intersecting entry names it; any other element keeps its style. Nothing
      ever goes back from shown. */
  lemma {:induction false} RevealIsOneWay(styles: seq<Style>, entries: seq<Entry>, shown: Style, i: nat)
    requires Targets(entries, |styles|) && i < |styles|
    ensures var r := ApplyEntries(styles, entries, shown);
      (styles[i] == shown ==> r[i] == shown) &&
      ((exists k :: 0 <= k < |entries| && entries[k].target == i && entries[k].isIntersecting) ==> r[i] == shown) &&
      ((forall k :: 0 <= k < |entries| && entries[k].target == i ==> !entries[k].isIntersecting) ==> r[i] == styles[i])
  {
    if entries != [] {
      var init := entries[..|entries| - 1];
      RevealIsOneWay(styles, init, shown, i);
      forall k | 0 <= k < |init|
        ensures init[k] == entries[k]
      {
      }
    }
  }

  class RevealGroup {
    const hidden: Style
    const shown: Style
    /** The inline style of each element of the group. */
    const styles: array<Style>

    /** Setting up the group: every element starts hidden and is observed. */
    constructor (count: nat, hidden: Style, shown: Style)
      ensures this.hidden == hidden && this.shown == shown
      ensures styles.Length == count
      ensures forall i :: 0 <= i < count ==> styles[i] == hidden
      ensures fresh(styles)
    {
      this.hidden := hidden;
      this.shown := shown;
      styles := new Style[count](_ => hidden);
    }

    /** The detail items (`.detail-item`, `.methodology-item`,
        `.tracking-category`) as set up on load: each starts transparent and
        moved 30px down, and is revealed by opacity 1 and no offset. */
    static method DetailItems(count: nat) returns (g: RevealGroup)
      ensures fresh(g) && fresh(g.styles) && g.styles.Length == count
      ensures g.shown == DetailShown
      ensures forall i :: 0 <= i < count ==>
        g.styles[i].opacity == "0" && g.styles[i].transform == "translateY(30px)"
    {
      g := new RevealGroup(count, DetailHidden, DetailShown);
    }

    /** The flow steps as set up on load: each starts transparent and scaled
        to 0.8, and is revealed by opacity 1 and full scale. */
    static method FlowSteps(count: nat) returns (g: RevealGroup)
      ensures fresh(g) && fresh(g.styles) && g.styles.Length == count
      ensures g.shown == FlowShown
      ensures forall i :: 0 <= i < count ==>
        g.styles[i].opacity == "0" && g.styles[i].transform == "scale(0.8)"
    {
      g := new RevealGroup(count, FlowHidden, FlowShown);
    }

    /** The detail items' observer callback: every intersecting entry shows
        its own element. */
    method Observe(entries: seq<Entry>)
      requires Targets(entries, styles.Length)
      modifies styles
      ensures styles[..] == ApplyEntries(old(styles[..]), entries, shown)
    {
      var k := 0;
      while k < |entries|
        invariant 0 <= k <= |entries|
        invariant styles[..] == ApplyEntries(old(styles[..]), entries[..k], shown)
      {
        assert entries[..k + 1][..k] == entries[..k];
        if entries[k].isIntersecting {
          styles[entries[k].target] := shown;
        }
        k := k + 1;
      }
      assert entries[..|entries|] == entries;
    }

    /** The callback of the observer created for flow step `step`: it shows
        that step whenever any of its entries intersects. */
    method ObserveStep(step: nat, intersecting: seq<bool>)
      requires step < styles.Length
      modifies styles
      ensures styles[..] == ApplyEntries(old(styles[..]), seq(|intersecting|, k requires 0 <= k < |intersecting| => Entry(step, intersecting[k])), shown)
    {
      Observe(seq(|intersecting|, k requires 0 <= k < |intersecting| => Entry(step, intersecting[k])));
    }
  }
}

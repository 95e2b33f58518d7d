/** The circular "stack" carousel of motion.js (initEnhancedCarousel): a mutable
    current index over N items, a true-modulo helper used by next and prev, and a
    render pass that gives every item its signed circular distance from the
    current one, a tween target derived from that distance, and the `is-active`
    flags on items and indicator dots. */
module Carousel {
  import opened Optional
  import opened Reals

  // ---------------------------------------------------------------------------
  // Integer arithmetic as JavaScript does it
  // ---------------------------------------------------------------------------

  function Abs(x: int): nat {
    if x < 0 then -x else x
  }

  /** JavaScript's `%` on integers: truncating, the remainder takes the sign
      of the dividend (Dafny's own `%` is Euclidean). */
  function JsRem(n: int, m: int): (r: int)
    requires m > 0
    ensures -m < r < m
    ensures n >= 0 ==> r >= 0
    ensures n <= 0 ==> r <= 0
  {
    if n >= 0 then n % m else -((-n) % m)
  }

  /** A multiple of m plus a remainder in [0, m) is the Euclidean division of
      the sum by m. */
  lemma EuclidUnique(a: int, m: int, q: int, r: int)
    requires m > 0 && 0 <= r < m && a == q * m + r
    ensures a % m == r && a / m == q
  {
    var k := q - a / m;
    assert k * m == a % m - r;
  }

  /** `mod(n, m)` of the carousel: `((n % m) + m) % m` with JavaScript's `%`.
      For every m > 0 it lies in [0, m) and is congruent to n modulo m, also
      for negative n: it is the mathematical (Euclidean) remainder. */
  function Mod(n: int, m: int): (r: int)
    requires m > 0
    ensures 0 <= r < m
    ensures r == n % m
  {
    var t := JsRem(n, m);
    if n >= 0 then
      EuclidUnique(t + m, m, 1, t);
      JsRem(t + m, m)
    else
      var q := (-n) % m;
      if q == 0 then
        EuclidUnique(n, m, -((-n) / m), 0);
        EuclidUnique(t + m, m, 1, 0);
        JsRem(t + m, m)
      else
        EuclidUnique(n, m, -((-n) / m) - 1, m - q);
        EuclidUnique(t + m, m, 0, m - q);
        JsRem(t + m, m)
  }

  // ---------------------------------------------------------------------------
  // Index arithmetic of next and prev
  // ---------------------------------------------------------------------------

  /** The index after k presses of "next" starting from i. */
  function Advance(i: int, n: int, k: nat): int
    requires n > 0
  {
    if k == 0 then i else Mod(Advance(i, n, k - 1) + 1, n)
  }

  lemma ModOfModPlus(x: int, c: int, n: int)
    requires n > 0
    ensures Mod(Mod(x, n) + c, n) == Mod(x + c, n)
  {
    var y := Mod(x, n) + c;
    assert x == (x / n) * n + Mod(x, n);
    assert y == (y / n) * n + y % n;
    assert x + c == (x / n + y / n) * n + y % n;
    EuclidUnique(x + c, n, x / n + y / n, y % n);
  }

  /** After k >= 1 presses of "next" the index is i + k reduced modulo n. */
  lemma {:induction false} AdvanceIsShift(i: int, n: int, k: nat)
    requires n > 0 && k >= 1
    ensures Advance(i, n, k) == Mod(i + k, n)
  {
    if k > 1 {
      AdvanceIsShift(i, n, k - 1);
      ModOfModPlus(i + k - 1, 1, n);
    }
  }

  /** Pressing "next" n times returns to the index started from. */
  lemma FullTurn(i: int, n: int)
    requires 0 <= i < n
    ensures Advance(i, n, n) == i
  {
    AdvanceIsShift(i, n, n);
    EuclidUnique(i + n, n, 1, i);
  }

  /** "prev" undoes "next" and "next" undoes "prev" on an in-range index. */
  lemma PrevUndoesNext(i: int, n: int)
    requires 0 <= i < n
    ensures Mod(Mod(i + 1, n) - 1, n) == i
    ensures Mod(Mod(i - 1, n) + 1, n) == i
  {
    ModOfModPlus(i + 1, -1, n);
    ModOfModPlus(i - 1, 1, n);
    EuclidUnique(i, n, 0, i);
  }

  // ---------------------------------------------------------------------------
  // Signed circular distance and its visual mapping
  // ---------------------------------------------------------------------------

  /** The distance `d` of item i from the current index: `i - index`, brought
      back by n once if it exceeds `floor(n / 2)` on either side. */
  function Distance(i: int, index: int, n: int): int
    requires n > 0
  {
    var half := n / 2;
    var d0 := i - index;
    var d1 := if d0 > half then d0 - n else d0;
    if d1 < -half then d1 + n else d1
  }

  /** For an in-range index the wrapped distance lies in the symmetric window
      [-floor(n/2), floor(n/2)]. */
  lemma DistanceInHalfRange(i: int, index: int, n: int)
    requires n > 0 && 0 <= i < n && 0 <= index < n
    ensures -(n / 2) <= Distance(i, index, n) <= n / 2
  {
  }

  /** Wrapping never changes the distance's residue modulo n. */
  lemma DistanceCongruent(i: int, index: int, n: int)
    requires n > 0
    ensures Mod(Distance(i, index, n), n) == Mod(i - index, n)
  {
    var d := Distance(i, index, n);
    var x := i - index;
    if d == x - n {
      ModOfModPlus(x, -n, n);
      EuclidUnique(Mod(x, n), n, 0, Mod(x, n));
      EuclidUnique(Mod(x, n) - n, n, -1, Mod(x, n));
    } else if d == x + n {
      ModOfModPlus(x, n, n);
      EuclidUnique(Mod(x, n) + n, n, 1, Mod(x, n));
    }
  }

  /** For an in-range index, the only item at distance 0 is the current one. */
  lemma DistanceZeroIffCurrent(i: int, index: int, n: int)
    requires n > 0 && 0 <= i < n && 0 <= index < n
    ensures Distance(i, index, n) == 0 <==> i == index
  {
  }

  /** The tween target render hands to the animation engine for one item.
      `rotateY` is None when the tween leaves the rotation as it was. */
  datatype Tween = Tween(opacity: real, blur: int, scale: real, x: int, rotateY: Option<int>, zIndex: int)

  /** The mapping from distance to tween target: items more than two places
      away go off-screen to +-300 and fade out; nearer items get an offset of
      180 per place, a rotation of -12 degrees per place, 2px of blur per place
      and a stacking order of 10 minus the distance. */
  function Layout(d: int): Tween {
    var ad := Abs(d);
    if ad > 2 then
      Tween(0.0, 12, 0.85, if d > 0 then 300 else -300, None, 0)
    else
      Tween(if ad == 0 then 1.0 else MaxReal(0.3, 1.0 - ad as real * 0.4),
            ad * 2, 1.0 - ad as real * 0.1, d * 180, Some(d * -12), 10 - ad)
  }

  /** Items on opposite sides at the same distance are mirror images. */
  lemma LayoutMirror(d: int)
    ensures Layout(-d).x == -Layout(d).x
    ensures Layout(d).rotateY.Some? ==> Layout(-d).rotateY == Some(-Layout(d).rotateY.value)
    ensures Layout(-d).opacity == Layout(d).opacity && Layout(-d).blur == Layout(d).blur
    ensures Layout(-d).scale == Layout(d).scale && Layout(-d).zIndex == Layout(d).zIndex
  {
  }

  /** Nearer items are stacked no lower, no less opaque and no more blurred
      than farther ones; among the five visible places the order is strict. */
  lemma NearerIsOnTop(d1: int, d2: int)
    requires Abs(d1) < Abs(d2)
    ensures Layout(d1).zIndex >= Layout(d2).zIndex
    ensures Layout(d1).opacity >= Layout(d2).opacity
    ensures Layout(d1).blur <= Layout(d2).blur
    ensures Abs(d1) <= 2 ==> Layout(d1).zIndex > Layout(d2).zIndex && Layout(d1).blur < Layout(d2).blur
  {
  }

  /** An item is visible exactly when it is at most two places away; visible
      items get an integer offset that is a multiple of 180 within +-360,
      hidden ones sit at +-300 on the side of their distance. */
  lemma VisibleWindow(d: int)
    ensures Layout(d).opacity > 0.0 <==> Abs(d) <= 2
    ensures Abs(d) <= 2 ==> Layout(d).x % 180 == 0 && -360 <= Layout(d).x <= 360
    ensures Abs(d) > 2 ==> (Layout(d).x == 300 <==> d > 0) && Abs(Layout(d).x) == 300
  {
  }

  // ---------------------------------------------------------------------------
  // The carousel component
  // ---------------------------------------------------------------------------

  class CarouselState {
    /** N, the number of items (fixed when the carousel is set up). */
    const n: nat
    /** The closure variable `index`; `goTo` stores any value given to it. */
    var index: int
    /** The `is-active` class of each item. */
    const active: array<bool>
    /** The last tween target requested for each item. */
    const tweens: array<Tween>
    /** The `is-active` class of each indicator dot (none without a dots container). */
    const dots: array<bool>

    ghost predicate Valid()
      reads this
    {
      n > 0 && active.Length == n && tweens.Length == n &&
      (dots.Length == 0 || dots.Length == n) && active != dots
    }

    predicate InRange()
      reads this
    {
      0 <= index < n
    }

    /** What render leaves behind for the current index. */
    ghost predicate Rendered()
      reads this, active, tweens, dots
      requires Valid()
    {
      (forall i :: 0 <= i < n ==>
         active[i] == (Distance(i, index, n) == 0) && tweens[i] == Layout(Distance(i, index, n))) &&
      (forall i :: 0 <= i < dots.Length ==> dots[i] == (i == index))
    }

    /** Setting up a carousel over `count` items: index 0, one dot per item
        when there is a dots container, then a first render. */
    constructor (count: nat, withDots: bool)
      requires count > 0
      ensures Valid() && Rendered()
      ensures n == count && index == 0
      ensures dots.Length == (if withDots then count else 0)
      ensures fresh(active) && fresh(tweens) && fresh(dots)
    {
      n := count;
      index := 0;
      active := new bool[count];
      tweens := new Tween[count](_ => Layout(0));
      dots := new bool[if withDots then count else 0];
      new;
      Render();
    }

    /** The guard of the setup: no carousel root, or a root without items,
        leaves the component inert. */
    static method Init(hasRoot: bool, count: nat, withDots: bool) returns (c: CarouselState?)
      ensures c != null <==> hasRoot && count > 0
      ensures c != null ==> fresh(c) && c.Valid() && c.Rendered() && c.n == count && c.index == 0
      ensures c != null ==> c.dots.Length == (if withDots then count else 0)
    {
      if !hasRoot || count == 0 {
        return null;
      }
      c := new CarouselState(count, withDots);
    }

    /** render: clears and recomputes every item's flag and tween target from
        its wrapped distance, then sets each dot's flag to "is the current
        index". For an in-range index exactly the current item is active. */
    method Render()
      requires Valid()
      modifies active, tweens, dots
      ensures Rendered()
      ensures InRange() ==> forall i :: 0 <= i < n ==> active[i] == (i == index)
    {
      var i := 0;
      while i < n
        invariant 0 <= i <= n
        invariant forall j :: 0 <= j < i ==>
          active[j] == (Distance(j, index, n) == 0) && tweens[j] == Layout(Distance(j, index, n))
      {
        active[i] := false;
        var d := Distance(i, index, n);
        tweens[i] := Layout(d);
        if Abs(d) <= 2 && Abs(d) == 0 {
          active[i] := true;
        }
        i := i + 1;
      }
      var k := 0;
      while k < dots.Length
        invariant 0 <= k <= dots.Length
        invariant forall j :: 0 <= j < n ==>
          active[j] == (Distance(j, index, n) == 0) && tweens[j] == Layout(Distance(j, index, n))
        invariant forall j :: 0 <= j < k ==> dots[j] == (j == index)
      {
        dots[k] := k == index;
        k := k + 1;
      }
      if InRange() {
        forall j | 0 <= j < n
          ensures active[j] == (j == index)
        {
          DistanceZeroIffCurrent(j, index, n);
        }
      }
    }

    /** goTo: stores the new index as given, without normalising it, and
        re-renders. */
    method GoTo(newIndex: int)
      requires Valid()
      modifies this, active, tweens, dots
      ensures Valid() && Rendered()
      ensures index == newIndex
    {
      index := newIndex;
      Render();
    }

    /** The "next" button and the autoplay tick. */
    method GoNext()
      requires Valid()
      modifies this, active, tweens, dots
      ensures Valid() && Rendered() && InRange()
      ensures index == Mod(old(index) + 1, n)
    {
      GoTo(Mod(index + 1, n));
    }

    /** The "prev" button. */
    method GoPrev()
      requires Valid()
      modifies this, active, tweens, dots
      ensures Valid() && Rendered() && InRange()
      ensures index == Mod(old(index) - 1, n)
    {
      GoTo(Mod(index - 1, n));
    }

    /** A click on dot i, which was created with `goTo(i)` as its handler. */
    method ClickDot(i: nat)
      requires Valid() && i < dots.Length
      modifies this, active, tweens, dots
      ensures Valid() && Rendered() && InRange()
      ensures index == i
    {
      GoTo(i);
    }
  }
}

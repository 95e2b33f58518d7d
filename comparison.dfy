/** The product comparison tool of script.js: a fixed four-product catalog, two
    selections (side A and side B) each with an exclusive "active" button, the
    per-side panel that `updateComparison` renders (name, brand, icon, score,
    ring colour, label, four sub-metric bars, highlight tags), and the winner
    line that `updateWinner` writes. */
module Comparison {
  import opened Optional
  import opened Decimal

  // ---------------------------------------------------------------------------
  // The catalog
  // ---------------------------------------------------------------------------

  datatype Highlight = Highlight(text: string, cls: string)

  /** The four sub-metric scores, in the order the bars are updated. */
  datatype Domains = Domains(nutrient: int, processing: int, additives: int, sugar: int)

  datatype Product = Product(name: string, brand: string, emoji: string, score: int,
                             labelText: string, labelClass: string,
                             domains: Domains, highlights: seq<Highlight>)

  /** `comparisonData`. */
  function Catalog(): map<string, Product> {
    map[
      "cereal-healthy" := Product("Whole Grain Oats", "Nature's Best", "\U{1F963}", 82,
                                  "Good Choice", "", Domains(85, 75, 90, 70),
                                  [Highlight("High Fiber", "good"), Highlight("Whole Grains", "good"),
                                   Highlight("Added Sugar", "moderate")]),
      "cereal-sugary" := Product("Frosted Flakes", "Kellogg's", "\U{1F963}", 34,
                                 "Poor Choice", "poor", Domains(25, 30, 55, 20),
                                 [Highlight("High Sugar", "bad"), Highlight("Ultra-Processed", "bad"),
                                  Highlight("Fortified", "moderate")]),
      "yogurt-greek" := Product("Greek Yogurt", "Fage", "\U{1F95B}", 91,
                                "Excellent Choice", "", Domains(95, 85, 98, 80),
                                [Highlight("High Protein", "good"), Highlight("Probiotics", "good"),
                                 Highlight("Low Sugar", "good")]),
      "drink-soda" := Product("Cola Soda", "Generic", "\U{1F964}", 12,
                              "Very Poor", "poor", Domains(5, 15, 40, 5),
                              [Highlight("Very High Sugar", "bad"), Highlight("No Nutrients", "bad"),
                               Highlight("Artificial Colors", "bad")])
    ]
  }

  function DomainValues(d: Domains): seq<int> {
    [d.nutrient, d.processing, d.additives, d.sugar]
  }

  /** Every score and sub-score in the catalog is a percentage, and every
      product has three highlight tags. */
  lemma CatalogWellFormed()
    ensures |Catalog()| == 4
    ensures forall key :: key in Catalog() ==>
      0 <= Catalog()[key].score <= 100 && |Catalog()[key].highlights| == 3 &&
      forall k :: 0 <= k < 4 ==> 0 <= DomainValues(Catalog()[key].domains)[k] <= 100
  {
    var keys := {"cereal-healthy", "cereal-sugary", "yogurt-greek", "drink-soda"};
    assert Catalog().Keys == keys;
    assert |keys| == 4;
  }

  // ---------------------------------------------------------------------------
  // Severity buckets
  // ---------------------------------------------------------------------------

  datatype Severity = Good | Moderate | Poor

  /** Worse severities rank higher. */
  function Rank(s: Severity): nat {
    match s
    case Good => 0
    case Moderate => 1
    case Poor => 2
  }

  /** The single colour class `updateScoreRing` gives the ring. */
  function RingSeverity(score: int): (r: Severity) {
    if score >= 70 then Good else if score >= 40 then Moderate else Poor
  }

  /** The colour class of a sub-metric bar; None leaves the bar in its
      default colour. */
  function BarSeverity(value: int): (r: Option<Severity>) {
    if value < 40 then Some(Poor) else if value < 60 then Some(Moderate) else None
  }

  /** The ring buckets: good from 70 up, moderate from 40 below 70, poor below
      40, and a higher score never gets a worse bucket. */
  lemma RingBuckets(score: int, higher: int)
    requires score <= higher
    ensures RingSeverity(score) == Good <==> score >= 70
    ensures RingSeverity(score) == Moderate <==> 40 <= score < 70
    ensures RingSeverity(score) == Poor <==> score < 40
    ensures Rank(RingSeverity(higher)) <= Rank(RingSeverity(score))
  {
  }

  /** The bar buckets, and how they sit against the ring's: both call a value
      poor below 40; they differ only on [60, 70), where the ring says
      moderate and the bar keeps its default colour. */
  lemma BarBuckets(value: int)
    ensures BarSeverity(value) == Some(Poor) <==> value < 40
    ensures BarSeverity(value) == Some(Moderate) <==> 40 <= value < 60
    ensures BarSeverity(value) == None <==> value >= 60
    ensures BarSeverity(value) == Some(Poor) <==> RingSeverity(value) == Poor
    ensures BarSeverity(value) != Some(RingSeverity(value)) <==> 60 <= value
    ensures BarSeverity(value) == None && RingSeverity(value) == Moderate <==> 60 <= value < 70
  {
  }

  /** The label class stored with each product agrees with the ring: it is
      "poor" exactly for the products whose ring is poor. */
  lemma CatalogLabelsMatchRing(key: string)
    requires key in Catalog()
    ensures Catalog()[key].labelClass == "poor" <==> RingSeverity(Catalog()[key].score) == Poor
    ensures Catalog()[key].labelClass == "" <==> RingSeverity(Catalog()[key].score) == Good
  {
  }

  // ---------------------------------------------------------------------------
  // One side's panel
  // ---------------------------------------------------------------------------

  /** A bar's final width (a percentage) and colour class. */
  datatype Bar = Bar(width: int, severity: Option<Severity>)

  /** Everything `updateComparison` writes for one side, as it stands once the
      score count-up and the delayed bar update have completed. `ring` is None
      while the ring has no colour class. */
  datatype Panel = Panel(name: string, brand: string, emoji: string, score: int,
                         ring: Option<Severity>, labelText: string, labelClassName: string,
                         bars: seq<Bar>, highlights: seq<Highlight>)

  /** The panel rendered from one product. */
  function ShowProduct(p: Product): (r: Panel)
    ensures |r.bars| == 4 && r.highlights == p.highlights
  {
    var values := DomainValues(p.domains);
    Panel(p.name, p.brand, p.emoji, p.score, Some(RingSeverity(p.score)), p.labelText,
          "compare-label " + p.labelClass,
          seq(4, k requires 0 <= k < 4 => Bar(values[k], BarSeverity(values[k]))),
          p.highlights)
  }

  /** `updateComparison(side, key)` on one side's panel: an unknown key leaves
      it alone, a known one replaces it with the product's panel. */
  function AfterUpdate(panel: Panel, key: string): Panel {
    if key in Catalog() then ShowProduct(Catalog()[key]) else panel
  }

  /** The bars carry the product's sub-scores in order, each coloured by its
      own bucket, and the highlight list is the product's own (replaced, not
      added to whatever the panel showed). */
  lemma PanelShowsProduct(panel: Panel, key: string)
    requires key in Catalog()
    ensures var r := AfterUpdate(panel, key);
      var p := Catalog()[key];
      r.name == p.name && r.score == p.score && r.ring == Some(RingSeverity(p.score)) &&
      r.highlights == p.highlights && |r.bars| == 4 &&
      forall k :: 0 <= k < 4 ==>
        r.bars[k].width == DomainValues(p.domains)[k] &&
        r.bars[k].severity == BarSeverity(DomainValues(p.domains)[k])
  {
  }

  /** For a known key the result does not depend on what the panel showed
      before, so repeating the update changes nothing; for an unknown key
      nothing changes at all. */
  lemma UpdateIdempotent(panel: Panel, other: Panel, key: string)
    ensures AfterUpdate(AfterUpdate(panel, key), key) == AfterUpdate(panel, key)
    ensures key in Catalog() ==> AfterUpdate(panel, key) == AfterUpdate(other, key)
    ensures key !in Catalog() ==> AfterUpdate(panel, key) == panel
  {
  }

  // ---------------------------------------------------------------------------
  // The winner line
  // ---------------------------------------------------------------------------

  datatype WinnerText = WinnerText(name: string, reason: string)

  const ReasonTail: string :=
    " points higher with better nutrient density, less processing, and better ingredients overall."
  const TieName: string := "It's a tie!"
  const TieReason: string := "Both products have the same health score."

  function Reason(diff: nat): string {
    "Scores " + NatToString(diff) + ReasonTail
  }

  /** The decision of `updateWinner` once both products are found. */
  function DecideWinner(a: Product, b: Product): WinnerText {
    if a.score > b.score then WinnerText(a.name, Reason(a.score - b.score))
    else if b.score > a.score then WinnerText(b.name, Reason(b.score - a.score))
    else WinnerText(TieName, TieReason)
  }

  /** `updateWinner(keyA, keyB)`: it has no guard, so a key missing from the
      catalog makes it throw before writing anything (None). */
  function WinnerFor(keyA: string, keyB: string): (r: Option<WinnerText>)
    ensures r.Some? <==> keyA in Catalog() && keyB in Catalog()
  {
    if keyA in Catalog() && keyB in Catalog() then Some(DecideWinner(Catalog()[keyA], Catalog()[keyB]))
    else None
  }

  /** The number cited in a reason reads back as the margin, which is
      positive; swapping the sides changes nothing; equal scores give the
      tie texts, which cite no number. */
  lemma WinnerCitesMargin(a: Product, b: Product)
    ensures DecideWinner(a, b) == DecideWinner(b, a)
    ensures a.score == b.score ==> DecideWinner(a, b) == WinnerText(TieName, TieReason)
    ensures a.score != b.score ==>
      var w := DecideWinner(a, b);
      var margin := if a.score > b.score then a.score - b.score else b.score - a.score;
      var digits := NatToString(margin);
      margin > 0 &&
      w.name == (if a.score > b.score then a.name else b.name) &&
      w.reason[..7] == "Scores " && 7 + |digits| <= |w.reason| &&
      AllDigits(w.reason[7..7 + |digits|]) && DigitsValue(w.reason[7..7 + |digits|]) == margin
  {
    if a.score != b.score {
      var margin := if a.score > b.score then a.score - b.score else b.score - a.score;
      var digits := NatToString(margin);
      var reason := Reason(margin);
      assert reason[7..7 + |digits|] == digits;
      ValueOfNatToString(margin);
    }
  }

  /** The page's default pair: Whole Grain Oats (82) beats Frosted Flakes (34)
      by 48 points. */
  lemma DefaultPairWinner()
    ensures WinnerFor("cereal-healthy", "cereal-sugary") ==
      Some(WinnerText("Whole Grain Oats", "Scores " + "48" + ReasonTail))
  {
    assert NatToString(48) == NatToString(4) + [DigitChar(8)] == "48";
    var p := Catalog()["cereal-healthy"];
    var q := Catalog()["cereal-sugary"];
    assert p.score - q.score == 48;
    assert Reason(48) == "Scores " + "48" + ReasonTail;
    assert DecideWinner(p, q) == WinnerText(p.name, Reason(48));
  }

  // ---------------------------------------------------------------------------
  // The tool's state and its click handlers
  // ---------------------------------------------------------------------------

  /** Which side a handler updates. */
  datatype Side = A | B

  /** The buttons' loop: remove `active` from every button of one side, then
      add it to the clicked one. */
  method ActivateOnly(buttons: array<bool>, clicked: nat)
    requires clicked < buttons.Length
    modifies buttons
    ensures forall j :: 0 <= j < buttons.Length ==> buttons[j] == (j == clicked)
  {
    var j := 0;
    while j < buttons.Length
      invariant 0 <= j <= buttons.Length
      invariant forall i :: 0 <= i < j ==> !buttons[i]
    {
      buttons[j] := false;
      j := j + 1;
    }
    buttons[clicked] := true;
  }

  class ComparisonTool {
    /** The `data-compare-a` / `data-compare-b` key of each button. */
    const keysA: seq<string>
    const keysB: seq<string>
    /** The `active` class of each button. */
    const activeA: array<bool>
    const activeB: array<bool>
    var selectedA: string
    var selectedB: string
    var panelA: Panel
    var panelB: Panel
    var winner: WinnerText

    ghost predicate Valid()
      reads this
    {
      activeA.Length == |keysA| && activeB.Length == |keysB| && activeA != activeB
    }

    /** `initComparisonTool`: the selections start at the two default keys;
        buttons, panels and winner line start as the page markup has them. */
    constructor (keysA: seq<string>, keysB: seq<string>, initialA: seq<bool>, initialB: seq<bool>,
                 panelA: Panel, panelB: Panel, winner: WinnerText)
      requires |initialA| == |keysA| && |initialB| == |keysB|
      ensures Valid()
      ensures this.keysA == keysA && this.keysB == keysB
      ensures activeA[..] == initialA && activeB[..] == initialB
      ensures selectedA == "cereal-healthy" && selectedB == "cereal-sugary"
      ensures this.panelA == panelA && this.panelB == panelB && this.winner == winner
      ensures fresh(activeA) && fresh(activeB)
    {
      this.keysA := keysA;
      this.keysB := keysB;
      activeA := new bool[|initialA|](i requires 0 <= i < |initialA| => initialA[i]);
      activeB := new bool[|initialB|](i requires 0 <= i < |initialB| => initialB[i]);
      selectedA := "cereal-healthy";
      selectedB := "cereal-sugary";
      this.panelA := panelA;
      this.panelB := panelB;
      this.winner := winner;
    }

    /** `updateComparison(side, key)`. */
    method UpdateComparison(side: Side, key: string)
      modifies this`panelA, this`panelB
      ensures panelA == (if side == A then AfterUpdate(old(panelA), key) else old(panelA))
      ensures panelB == (if side == B then AfterUpdate(old(panelB), key) else old(panelB))
    {
      var data := if key in Catalog() then Some(Catalog()[key]) else None;
      if data.None? {
        return;
      }
      if side == A {
        panelA := ShowProduct(data.value);
      } else {
        panelB := ShowProduct(data.value);
      }
    }

    /** `updateWinner(keyA, keyB)`; when it throws on a missing key the line
        keeps its old text. */
    method UpdateWinner(keyA: string, keyB: string)
      modifies this`winner
      ensures winner == (match WinnerFor(keyA, keyB) case Some(w) => w case None => old(winner))
    {
      var r := WinnerFor(keyA, keyB);
      if r.Some? {
        winner := r.value;
      }
    }

    /** A click on side A's button b. Side B's selection, buttons and panel
        are untouched. */
    method ClickA(b: nat)
      requires Valid() && b < |keysA|
      modifies this, activeA
      ensures Valid()
      ensures forall j :: 0 <= j < activeA.Length ==> activeA[j] == (j == b)
      ensures selectedA == keysA[b] && selectedB == old(selectedB)
      ensures panelA == AfterUpdate(old(panelA), keysA[b]) && panelB == old(panelB)
      ensures winner == (match WinnerFor(keysA[b], selectedB) case Some(w) => w case None => old(winner))
      ensures activeB[..] == old(activeB[..])
    {
      ActivateOnly(activeA, b);
      selectedA := keysA[b];
      UpdateComparison(A, selectedA);
      UpdateWinner(selectedA, selectedB);
    }

    /** A click on side B's button b; the mirror image of ClickA. */
    method ClickB(b: nat)
      requires Valid() && b < |keysB|
      modifies this, activeB
      ensures Valid()
      ensures forall j :: 0 <= j < activeB.Length ==> activeB[j] == (j == b)
      ensures selectedB == keysB[b] && selectedA == old(selectedA)
      ensures panelB == AfterUpdate(old(panelB), keysB[b]) && panelA == old(panelA)
      ensures winner == (match WinnerFor(selectedA, keysB[b]) case Some(w) => w case None => old(winner))
      ensures activeA[..] == old(activeA[..])
    {
      ActivateOnly(activeB, b);
      selectedB := keysB[b];
      UpdateComparison(B, selectedB);
      UpdateWinner(selectedA, selectedB);
    }

    /** `updateScoreRing(side, score)`: recolours one side's ring only. */
    method UpdateScoreRing(side: Side, score: int)
      modifies this`panelA, this`panelB
      ensures panelA == (if side == A then old(panelA).(ring := Some(RingSeverity(score))) else old(panelA))
      ensures panelB == (if side == B then old(panelB).(ring := Some(RingSeverity(score))) else old(panelB))
    {
      if side == A {
        panelA := panelA.(ring := Some(RingSeverity(score)));
      } else {
        panelB := panelB.(ring := Some(RingSeverity(score)));
      }
    }

    /** The one-shot reveal of the section: the rings are coloured for the
        default scores 82 and 34, whatever is selected by then. */
    method RevealRings()
      modifies this`panelA, this`panelB
      ensures panelA == old(panelA).(ring := Some(Good))
      ensures panelB == old(panelB).(ring := Some(Poor))
    {
      UpdateScoreRing(A, 82);
      UpdateScoreRing(B, 34);
    }
  }
}

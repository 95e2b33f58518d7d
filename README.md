# Yammoing website: interactive core in Dafny

This project models the client-side logic of the Yammoing marketing site. The
markup, styling and animation engine are not modelled; the state and the
arithmetic that the scripts keep are. There are five parts.

- **Stack carousel** (`motion.js`, `initEnhancedCarousel`), module `Carousel`.
  - A class `CarouselState` holds the current index over N items, the items'
    `is-active` flags, the tween target requested for each item, and the
    indicator dots' flags.
  - `mod` is written with JavaScript's truncating `%` (`JsRem`). It is proved
    equal to the Euclidean remainder.
  - `render` computes each item's signed circular distance (`Distance`) and
    maps it to opacity, blur, scale, offset, rotation and stacking order
    (`Layout`).
  - `goTo`, next, prev and a dot click are methods. The guard that leaves the
    carousel inert is `Init`.
- **Text splitting and counter parsing** (`motion.js`), modules `TextSplit`
  and `CounterParse`.
  - `splitText` cuts a text into words at every space, and every word into
    characters.
  - The top of `initCounters` finds the first digit run in a counter's text,
    reads it as the target, and removes its first occurrence to get the
    suffix. The counter then shows `"0"` plus the suffix.
  - Module `Decimal` holds the conversions between numbers and digit strings
    that the scripts rely on when they write a number into a text
    (`String(n)`) and read one back (`parseInt`).
- **Product comparison tool** (`script.js`), module `Comparison`.
  - The four-product catalog.
  - The class `ComparisonTool` with the two selections, the exclusive
    `active` buttons of each side, each side's panel and the winner line.
  - `updateComparison`, `updateScoreRing`, `updateWinner`, the click handlers,
    and the ring reveal with the default scores.
- **Count-ups** (`script.js`), module `Counters`.
  - The stepped stats counter (`animateStatCounter`) as a class
    `StatCounter`: one method call per interval tick. `animateScore` is the
    same counter with target 87, because its text `Math.floor(current)` is
    the bare branch of the stats format.
  - The M+/K+/bare number format `FormatStat`.
  - `easeOutCubic` (`Ease`), and one animation frame of `animateNumber`
    (`AnimateFrame`).
- **Domains page** (`features-detailed.js`), module `FeaturesDetailed`.
  - The exclusive accordion (class `Accordion`): a click closes every item
    and reopens the clicked one only if it was closed. The first header's
    item is opened on load.
  - The one-way reveal of detail items and flow steps (class `RevealGroup`).
    Elements start hidden, and an intersecting observer entry shows its
    element. Nothing ever hides it again.

Specification functions without a contract of their own are stated about by
the lemmas listed below:
- `Carousel.Distance`, `Carousel.Layout`, `Carousel.Advance`;
- `CounterParse.RemoveFirst`, `CounterParse.InitialDisplay`,
  `CounterParse.FinalDisplay`;
- `Comparison.Catalog`, `Comparison.RingSeverity`, `Comparison.BarSeverity`,
  `Comparison.DecideWinner`, `Comparison.AfterUpdate`;
- `Counters.FormatStat`, `Counters.Ease`, `Counters.AnimateFrame`,
  `Counters.AnimateFrameClamped`;
- `FeaturesDetailed.DefaultOpen`.

## Model

| member | source | states |
|---|---|---|
| Decimal.NatToString | script.js:149-156 | The text written for a whole number has at least one digit, only digits, and no leading zero. It begins with '0' exactly when the number is 0. |
| Decimal.DigitValue | motion.js:401 | A digit character's value is below 10, and converting it back gives the same character. |
| Decimal.ValueOfNatToString | motion.js:401 | Reading back (parseInt) the text written for n gives n. |
| Decimal.NatToStringOfValue | motion.js:401 | Writing the value of a canonical digit run gives the run back. |
| Decimal.NatToStringInjective | script.js:149-156 | `String(n)` is injective on whole numbers: two numbers are written the same only when they are equal. |
| Carousel.JsRem | motion.js:617 | JavaScript's `%` lies strictly between -m and m and takes the sign of the dividend. |
| Carousel.Mod | motion.js:617 | `mod(n, m)` lies in [0, m) and equals the Euclidean remainder, for negative n too. |
| Carousel.AdvanceIsShift | motion.js:677 | After k >= 1 presses of next from i, the index is (i + k) mod N. |
| Carousel.FullTurn | motion.js:677 | N presses of next return to the starting index. |
| Carousel.PrevUndoesNext | motion.js:677-678 | On an in-range index, prev undoes next and next undoes prev. |
| Carousel.DistanceInHalfRange | motion.js:628-631 | For in-range indices, the wrapped distance lies in [-floor(N/2), floor(N/2)]. |
| Carousel.DistanceCongruent | motion.js:628-631 | Wrapping keeps the distance congruent to i - index modulo N. |
| Carousel.DistanceZeroIffCurrent | motion.js:628-631 | For in-range indices, the distance is 0 exactly for the current item. |
| Carousel.LayoutMirror | motion.js:636-666 | Items at the same distance on opposite sides get mirrored offset and rotation and equal opacity, blur, scale and stacking. |
| Carousel.NearerIsOnTop | motion.js:636-666 | A nearer item is stacked no lower, is no less opaque and no more blurred. Within two places it is strictly higher and sharper. |
| Carousel.VisibleWindow | motion.js:636-666 | Opacity is positive exactly within two places. Visible offsets are multiples of 180 within ±360. Hidden items sit at ±300 on the side of their distance. |
| Carousel.CarouselState.constructor | motion.js:602-615 | Setup: index 0 and one dot per item when there is a dots container, then a first render. |
| Carousel.CarouselState.Init | motion.js:592-600 | A carousel exists exactly when there is a root and at least one item. It starts at index 0, rendered. |
| Carousel.CarouselState.Render | motion.js:624-675 | Every item's flag and tween target follow from its wrapped distance, and each dot is active iff it is the current index. For an in-range index, exactly the current item is active. |
| Carousel.CarouselState.GoTo | motion.js:619-622 | The index is set to the given value, unnormalised, and everything is re-rendered. |
| Carousel.CarouselState.GoNext | motion.js:677 | The index becomes (index + 1) mod N, which is in range, and everything is re-rendered. |
| Carousel.CarouselState.GoPrev | motion.js:678 | The index becomes (index - 1) mod N, which is in range, and everything is re-rendered. |
| Carousel.CarouselState.ClickDot | motion.js:612 | A click on dot i makes i the current index and re-renders. |
| TextSplit.SplitWords | motion.js:59 | `split(' ')` yields at least one word, and no word contains a space. |
| TextSplit.SplitText | motion.js:57-72 | The word spans joined with single spaces give the text back, there is one more word than spaces, and the character spans are exactly the text's non-space characters in order. |
| TextSplit.JoinSplit | motion.js:59 | Joining the split words with single spaces gives the text back. |
| TextSplit.SplitJoin | motion.js:59 | Splitting space-free words joined with single spaces gives the words back. |
| TextSplit.WordCount | motion.js:59-67 | There is one word more than the text has spaces, empty words included. |
| TextSplit.CharsAreNonSpaces | motion.js:61-64 | The character spans are exactly the text's non-space characters in order, so there are as many as its length minus its spaces. |
| CounterParse.FirstDigitFrom | motion.js:398 | The position found holds a digit (or is the end), and no digit comes before it. |
| CounterParse.RunEnd | motion.js:398 | The greedy `\d+` run ends at the first non-digit. |
| CounterParse.IndexOf | motion.js:402 | A position returned is at or after the start and the pattern occurs there. |
| CounterParse.IndexOfFindsFirst | motion.js:402 | The first occurrence is the one returned, which is what `replace` with a string removes. |
| CounterParse.ParseCounter | motion.js:397-401 | A text is skipped exactly when it has no digit. |
| CounterParse.ParseFirstRun | motion.js:398-402 | For a digit-free prefix, a maximal digit run and the rest: the target is the run's value, and the suffix is the text without the run. |
| CounterParse.InitialDisplayLeadsWithZero | motion.js:398-404 | Before counting, the counter shows "0" followed by the text with its number removed, so the "0" comes before any prefix rather than where the number stood. |
| CounterParse.FinalDisplayRestoresText | motion.js:402-419 | A text that begins with a canonical number ends the count-up (progress 1) showing exactly the text it started with. |
| Comparison.CatalogWellFormed | script.js:347-424 | There are four products. Every score and sub-score is in [0, 100], and every product has three highlights. |
| Comparison.RingBuckets | script.js:522-529 | The ring is good from 70, moderate on [40, 70) and poor below 40. A higher score never gets a worse colour. |
| Comparison.BarBuckets | script.js:495-500 | A bar is poor below 40, moderate on [40, 60) and default from 60. It agrees with the ring on "poor" and differs exactly from 60 up. |
| Comparison.CatalogLabelsMatchRing | script.js:347-424 | A product's label class is "poor" exactly when its ring is poor, and empty exactly when its ring is good. |
| Comparison.ShowProduct | script.js:486-511 | A shown panel has four bars and exactly the product's highlights. |
| Comparison.PanelShowsProduct | script.js:462-511 | For a known key, the panel shows the product's name and score, the ring colour of its score, its highlights, and its four sub-scores as bar widths, each with its own colour. |
| Comparison.UpdateIdempotent | script.js:462-464 | An unknown key changes nothing. A known key's panel does not depend on the previous panel, so repeating the update changes nothing. |
| Comparison.WinnerFor | script.js:564-583 | A winner line is written exactly when both keys are in the catalog. |
| Comparison.WinnerCitesMargin | script.js:570-581 | The higher score's product wins, regardless of which side it is on. The number in the reason reads back as the positive margin. Equal scores give the tie texts. |
| Comparison.DefaultPairWinner | script.js:433-434 | The default pair shows Whole Grain Oats winning by 48 points. |
| Comparison.ActivateOnly | script.js:439-440 | After a click, exactly the clicked button of that side is active. |
| Comparison.ComparisonTool.constructor | script.js:426-434 | The selections start at "cereal-healthy" and "cereal-sugary". Buttons, panels and winner start as the page has them. |
| Comparison.ComparisonTool.UpdateComparison | script.js:462-512 | Only the named side's panel changes, to the product's panel; an unknown key changes nothing. |
| Comparison.ComparisonTool.UpdateWinner | script.js:564-583 | The winner line becomes the decision for the two keys. A missing key leaves it unchanged. |
| Comparison.ComparisonTool.ClickA | script.js:437-445 | Exactly the clicked A button is active. Selection A and panel A follow its key, and the winner is recomputed against the current B. Side B is untouched. |
| Comparison.ComparisonTool.ClickB | script.js:448-456 | The mirror image of ClickA for side B. |
| Comparison.ComparisonTool.UpdateScoreRing | script.js:514-533 | Only the named side's ring is recoloured, by the score's bucket. |
| Comparison.ComparisonTool.RevealRings | script.js:549-553 | The reveal colours ring A good and ring B poor (82 and 34), whatever is selected. |
| Counters.ValueAfter | script.js:142-147 | The counter's value stays in [0, target]. |
| Counters.StopsAtTickFifty | script.js:136-147 | A positive target stops on tick 50 exactly. The value never decreases and is the target from then on. |
| Counters.NextStep | script.js:142-147 | A running tick adds target/50. It stops and clamps exactly when the sum reaches the target. |
| Counters.ZeroTargetStopsAtOnce | script.js:142-147 | A zero target stops on the first tick, showing 0. |
| Counters.Tenths | script.js:151 | The tenths `toFixed(1)` writes are within half a tenth of the exact value. |
| Counters.FormatStatShape | script.js:149-156 | The text ends in "+" iff the target is at least 1000, and in "M+" iff at least a million. The bare branch reads back as the value's whole part, the K branch holds the whole thousands, and the M branch the nearest tenth of a million. |
| Counters.StatTexts | script.js:149-165 | The three stats end on "2.0M+", "1K+" and "9". The million counter's first tick shows "0.0M+". The score counter ends on "87". |
| Counters.StatCounter.constructor | script.js:136-140 | A new counter is at 0 and running, and its text is untouched. |
| Counters.StatCounter.Tick | script.js:142-157 | One tick advances to the next step value, clamped at and stopping at the target, and writes its formatted text. |
| Counters.EaseShape | script.js:599-601 | The ease-out curve runs from 0 to 1 and rises monotonically on [0, 1]. |
| Counters.FrameAtEnd | script.js:585-597 | A frame shows exactly `to` and requests no further frame iff the duration has passed. Before that it always requests another. |
| Counters.FrameWithinRange | script.js:585-597 | From the start time on, every frame shows a value between `from` and `to`. |
| Counters.FrameBeforeStart | script.js:589 | A frame stamped 2 ms before the start, counting 34 to 82 over 500 ms, shows 33. |
| Counters.ClampedFrameWithinRange | script.js:589 | With progress clamped to [0, 1], every frame is between `from` and `to`. |
| Counters.ClampedFrameAgrees | script.js:589 | From the start time on, the clamped frame equals the frame as written, so it still ends on `to`. |
| FeaturesDetailed.AfterClick | features-detailed.js:4-19 | A click keeps the number of items and leaves at most one open; the clicked item ends open exactly when it was closed. |
| FeaturesDetailed.ClickLeavesAtMostOne | features-detailed.js:4-19 | After any click at most one item is open. It is none if the clicked item was open, and exactly the clicked one otherwise. |
| FeaturesDetailed.ClickSequences | features-detailed.js:4-19 | Clicking the same header twice leaves the clicked item as it was and every other item closed. Clicking two different headers leaves only the second one's item open. |
| FeaturesDetailed.DefaultOpenFirst | features-detailed.js:21-24 | On load the first header's item is open. If no item was open before, it is the only open one. |
| FeaturesDetailed.Accordion.constructor | features-detailed.js:21-24 | The items start as the page had them, with the first header's item opened. |
| FeaturesDetailed.Accordion.Click | features-detailed.js:4-19 | A header click gives the exclusive toggle of its item. |
| FeaturesDetailed.ApplyEntries | features-detailed.js:29-39 | Handling entries keeps the number of elements, and an element already shown stays shown. |
| FeaturesDetailed.RevealIsOneWay | features-detailed.js:29-39 | A shown element stays shown. An element named by an intersecting entry becomes shown. Any other element keeps its style. |
| FeaturesDetailed.RevealGroup.constructor | features-detailed.js:41-46 | Every element of the group starts with the hidden style. |
| FeaturesDetailed.RevealGroup.DetailItems | features-detailed.js:41-45 | Detail items start at opacity "0" and translateY(30px), and are revealed with opacity "1" and translateY(0). |
| FeaturesDetailed.RevealGroup.FlowSteps | features-detailed.js:51-66 | Flow steps start at opacity "0" and scale(0.8), and are revealed with opacity "1" and scale(1). |
| FeaturesDetailed.RevealGroup.Observe | features-detailed.js:29-39 | The detail observer's callback applies its entries in order, as ApplyEntries does. |
| FeaturesDetailed.RevealGroup.ObserveStep | features-detailed.js:57-64 | A flow step's own observer shows that step when any of its entries intersects. |

## Left out

- Timers, animation frames and observers: each `setInterval` tick, `requestAnimationFrame` callback and observer callback is one method call. Intervals, delays, thresholds, root margins and the autoplay pause and resume on hover (motion.js:684-689) are not modelled.
- The animation engine: the carousel's `gsap.to` is modelled as the target it is given (`Tween`). Durations, easing and interpolation between targets are left out.
- The tween-driven progress of `initCounters` (motion.js:406-421) is modelled only at progress 1 (`FinalDisplay`). The scroll-trigger set-up is left out.
- Transition strings, stagger delays, the ring's stroke dash offsets (which use π) and the bars' reset to 0% before their 50 ms timeout are left out. A panel is modelled as it stands once its timeouts and count-up have completed.
- Comparison.Panel: the score is the end value of `animateNumber`, and its start value, read back with `parseInt` from the old text (script.js:476), is not modelled. That end value is the product's score only when the old text parses as a number: a non-numeric old text gives NaN as the start, and then every frame, the last included, shows "NaN" (script.js:590).
- Markup: `innerHTML` building, HTML escaping and element lookup are left out. Optional elements that the scripts look up (emoji, bars, highlights, rings) are taken to be present; the carousel's dots container may be absent (`withDots`). A lookup that fails and throws is not modelled, except in `updateWinner`.
- FeaturesDetailed.Accordion: each header is assumed to sit in an accordion item.
- The carousel's set-up is disabled at motion.js:1383. It is modelled as if it were enabled.
- Carousel.Layout: opacity and scale are exact reals rather than JavaScript floating point numbers (0.85, 1 - 0.1·ad).
- Counters.StatCounter.Tick: the accumulator is an exact real. It does not model the floating point rounding of repeated `+= target / 50`, which can change the tick on which the sum reaches the target.
- Counters.Tenths: it rounds the exact value half up. It does not model `toFixed` working on the nearest binary double.
- TextSplit.SplitWords: it splits per `char`, while JavaScript splits per UTF-16 code unit (surrogate pairs are split apart).
- CounterParse.ParseCounter: the digits are read exactly. It does not model `parseInt` losing precision beyond 2^53. `\d` is taken as ASCII digits, as JavaScript's regular expressions do.
- Carousel.CarouselState.Render: "exactly one item is active" is stated only for an in-range index, because `goTo` stores any value given to it without normalising. All callers in the file (dots, next, prev) pass in-range values.
- Counters.FrameWithinRange: it requires the frame to be stamped at or after the start, because `animateNumber` caps its progress only above (see Findings).
- CounterParse.FinalDisplayRestoresText: the round trip is proved for every digit run. In the browser it holds only below 2^53, where `parseInt` is exact: "99999999999999999" reads back as 1e17 and is written "100000000000000000", and from 1e21 on `String` writes exponent form.
- Counters.Ease, Counters.AnimateFrame: computed with exact reals, not IEEE doubles (`Math.pow`, the multiply and the add). FrameAtEnd and the range lemmas hold either way; the floor of an intermediate frame can differ by one from the browser's.
- Comparison.AfterUpdate: a key is unknown exactly when it is not one of the four catalog keys. `comparisonData[key]` (script.js:463) also finds the members inherited from `Object.prototype` ("constructor", "toString", "__proto__", …); such a key passes the guard at script.js:464, partly rewrites the panel (the name becomes the member's own `name`, e.g. "Object" for "constructor" and "toString" for "toString", and is cleared for "__proto__"; a NaN count-up, a poor ring, label class "compare-label undefined", bars reset to 0%) and then throws at script.js:508. This is not modelled: buttons are taken to carry catalog keys or keys that name nothing at all.
- Comparison.UpdateIdempotent: "an unknown key changes nothing" holds for keys that name nothing; keys naming `Object.prototype` members are not modelled (see AfterUpdate).
- Comparison.ComparisonTool.UpdateComparison: keys naming `Object.prototype` members, which partly rewrite the panel and then throw, are not modelled (see AfterUpdate).
- Comparison.WinnerFor: "written exactly when both keys are in the catalog" does not cover keys naming `Object.prototype` members; `updateWinner` then compares an undefined score with the other score (or with another undefined one); every comparison is false, so it writes the tie texts (script.js:571-581). Not modelled.
- Comparison.ComparisonTool.UpdateWinner: the same gap as WinnerFor; a key naming an `Object.prototype` member is treated as missing, while the source writes the tie texts.
- Comparison.ComparisonTool.ClickA: for a button key naming an `Object.prototype` member the source partly rewrites panel A and throws before `updateWinner`; the model leaves panel A unchanged and treats the key as missing.
- Comparison.ComparisonTool.ClickB: the same gap as ClickA, on side B.
- Analytics, navigation, forms, the other GSAP sections and the remaining scripts of the site are not part of this model.

## Findings

| source | as written | input that shows it | evidently intended | confidence | as-written member | corrected member |
|---|---|---|---|---|---|---|
| script.js:589 | `Math.min(elapsed / duration, 1)` caps the progress only above, so a negative elapsed time gives a negative progress. | A frame stamp 2 ms before the start time, counting 34 up to 82 over 500 ms, shows 33, below the start value. | The progress is clamped to [0, 1], so that every frame shows a value between `from` and `to`. | low: frame stamps before `performance.now()` at the call are rare, not executed | Counters.FrameBeforeStart | Counters.ClampedFrameWithinRange |

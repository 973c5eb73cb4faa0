/** The adaptive render-and-decode strategy shared by the PDF decoder, the image
    decoder and the original script: decode a unit of input (a page or a frame)
    at the primary scale and, only when that yields nothing and the caller's
    policy allows it, render it again at the fallback scale and use that
    decode instead. */
module Adaptive {
  import opened Wrappers
  import opened Barcodes

  /** The decoders' immutable tuning parameters (the frozen `DecodeSettings` dataclass). */
  datatype DecodeSettings = DecodeSettings(scale: real, fallbackScale: real)

  /** `DecodeSettings()`: primary scale 3.5, fallback scale 5.0. */
  const DefaultDecodeSettings := DecodeSettings(3.5, 5.0)

  /** The two foreign calls of one decode pass: rasterise a unit at a scale, then read barcodes. */
  datatype Engine<!U, !B> = Engine(render: (U, real) -> B, read: B -> seq<Detection>)

  /** One render at `scale` followed by one filtered read. */
  function Decode<U, B>(e: Engine<U, B>, unit: U, scale: real): seq<string> {
    DecodeAll(e.read(e.render(unit, scale)))
  }

  /** The values kept for one unit. `fallback` is the scale of the second attempt,
      None when the caller's policy rules a second attempt out. */
  function UnitValues<U, B>(e: Engine<U, B>, unit: U, scale: real, fallback: Option<real>): (vals: seq<string>)
  {
    var primary := Decode(e, unit, scale);
    if primary == [] && fallback.Some? then Decode(e, unit, fallback.value) else primary
  }

  /** One render of the page with index `page` at `scale`. */
  datatype RenderCall = RenderCall(page: nat, scale: real)

  /** The renders of the unit with index `page`, in call order. */
  function UnitCalls<U, B>(e: Engine<U, B>, page: nat, unit: U, scale: real, fallback: Option<real>): seq<RenderCall> {
    if Decode(e, unit, scale) == [] && fallback.Some? then [RenderCall(page, scale), RenderCall(page, fallback.value)]
    else [RenderCall(page, scale)]
  }

  /** The retry policy for one unit: the primary render always happens first; a second
      render happens exactly when the primary decode is empty and a fallback is allowed,
      and the kept values are the decode of the last render (a fallback replaces the
      primary values, it does not add to them). */
  lemma UnitPolicy<U, B>(e: Engine<U, B>, page: nat, unit: U, scale: real, fallback: Option<real>)
    ensures var calls := UnitCalls(e, page, unit, scale, fallback);
      && 1 <= |calls| <= 2
      && calls[0] == RenderCall(page, scale)
      && (|calls| == 2 <==> Decode(e, unit, scale) == [] && fallback.Some?)
      && (|calls| == 2 ==> calls[1] == RenderCall(page, fallback.value))
      && UnitValues(e, unit, scale, fallback) == Decode(e, unit, calls[|calls| - 1].scale)
  {
  }

  // The document level is generic in what one unit contributes, so that reasoning about
  // the concatenation never has to look inside a unit's decode.

  /** The concatenation, in ascending unit index, of every unit's contribution. */
  function Concat<U, T>(f: U -> seq<T>, units: seq<U>): seq<T>
    decreases |units|
  {
    if units == [] then [] else Concat(f, units[..|units| - 1]) + f(units[|units| - 1])
  }

  /** Like Concat, for contributions that depend on the unit's index. */
  function Collect<U, T>(g: (nat, U) -> seq<T>, units: seq<U>): seq<T>
    decreases |units|
  {
    if units == [] then [] else Collect(g, units[..|units| - 1]) + g(|units| - 1, units[|units| - 1])
  }

  lemma ConcatStep<U, T>(f: U -> seq<T>, units: seq<U>, i: nat)
    requires i < |units|
    ensures Concat(f, units[..i + 1]) == Concat(f, units[..i]) + f(units[i])
  {
    assert units[..i + 1][..i] == units[..i];
  }

  lemma CollectStep<U, T>(g: (nat, U) -> seq<T>, units: seq<U>, i: nat)
    requires i < |units|
    ensures Collect(g, units[..i + 1]) == Collect(g, units[..i]) + g(i, units[i])
  {
    assert units[..i + 1][..i] == units[..i];
  }

  /** Concat distributes over the concatenation of unit sequences. */
  lemma {:induction false} ConcatAppend<U, T>(f: U -> seq<T>, a: seq<U>, b: seq<U>)
    ensures Concat(f, a + b) == Concat(f, a) + Concat(f, b)
    decreases |b|
  {
    if b == [] {
      assert a + b == a;
    } else {
      var n := |b| - 1;
      var ab := a + b;
      assert ab[..|ab| - 1] == a + b[..n];
      assert ab[|ab| - 1] == b[n];
      ConcatAppend(f, a, b[..n]);
    }
  }

  /** Every render call in the contribution of unit `j` names `j`. */
  ghost predicate IndexTagged<U>(g: (nat, U) -> seq<RenderCall>, units: seq<U>) {
    forall j, k :: 0 <= j < |units| && 0 <= k < |g(j, units[j])| ==> g(j, units[j])[k].page == j
  }

  /** With index-tagged contributions, the calls of unit `i` are exactly its own contribution. */
  lemma {:induction false} CollectFor<U>(g: (nat, U) -> seq<RenderCall>, units: seq<U>, i: nat)
    requires IndexTagged(g, units)
    requires i < |units|
    ensures CallsFor(Collect(g, units), i) == g(i, units[i])
    decreases |units|
  {
    var n := |units| - 1;
    var before := Collect(g, units[..n]);
    CallsForAppend(before, g(n, units[n]), i);
    CallsForTagged(g(n, units[n]), n, i);
    if i < n {
      CollectFor(g, units[..n], i);
      assert units[..n][i] == units[i];
    } else {
      CollectInOrder(g, units[..n]);
      NoCallsBeyond(before, n);
    }
  }

  /** With index-tagged contributions, calls only name existing units, in ascending order. */
  lemma {:induction false} CollectInOrder<U>(g: (nat, U) -> seq<RenderCall>, units: seq<U>)
    requires IndexTagged(g, units)
    ensures forall k :: 0 <= k < |Collect(g, units)| ==> Collect(g, units)[k].page < |units|
    ensures forall j, k :: 0 <= j < k < |Collect(g, units)| ==> Collect(g, units)[j].page <= Collect(g, units)[k].page
    decreases |units|
  {
    if units != [] {
      var n := |units| - 1;
      var before := Collect(g, units[..n]);
      var here := g(n, units[n]);
      CollectInOrder(g, units[..n]);
      var calls := Collect(g, units);
      assert calls == before + here;
      forall k | 0 <= k < |calls|
        ensures calls[k].page <= n
        ensures k < |before| ==> calls[k].page < n
        ensures k >= |before| ==> calls[k].page == n
      {
        if k >= |before| {
          assert calls[k] == here[k - |before|];
        } else {
          assert calls[k] == before[k];
        }
      }
      forall j, k | 0 <= j < k < |calls|
        ensures calls[j].page <= calls[k].page
      {
        if k < |before| {
          assert calls[j] == before[j] && calls[k] == before[k];
        }
      }
    }
  }

  /** One to two calls per unit give one to two calls per unit over the whole sequence. */
  lemma {:induction false} CollectLength<U, T>(g: (nat, U) -> seq<T>, units: seq<U>)
    requires forall j :: 0 <= j < |units| ==> 1 <= |g(j, units[j])| <= 2
    ensures |units| <= |Collect(g, units)| <= 2 * |units|
    decreases |units|
  {
    if units != [] {
      CollectLength(g, units[..|units| - 1]);
    }
  }

  /** The render calls made for the page with index `page`. */
  function CallsFor(calls: seq<RenderCall>, page: nat): (mine: seq<RenderCall>)
    ensures |mine| <= |calls|
    ensures forall k :: 0 <= k < |mine| ==> mine[k].page == page
  {
    if calls == [] then []
    else (if calls[0].page == page then [calls[0]] else []) + CallsFor(calls[1..], page)
  }

  lemma {:induction false} CallsForAppend(a: seq<RenderCall>, b: seq<RenderCall>, page: nat)
    ensures CallsFor(a + b, page) == CallsFor(a, page) + CallsFor(b, page)
  {
    if a == [] {
      assert a + b == b;
    } else {
      assert (a + b)[1..] == a[1..] + b;
      CallsForAppend(a[1..], b, page);
    }
  }

  /** A trace whose calls all name `n` keeps all of them for `n` and none for any other page. */
  lemma {:induction false} CallsForTagged(calls: seq<RenderCall>, n: nat, page: nat)
    requires forall k :: 0 <= k < |calls| ==> calls[k].page == n
    ensures CallsFor(calls, page) == if page == n then calls else []
  {
    if calls != [] {
      CallsForTagged(calls[1..], n, page);
    }
  }

  /** A trace whose pages are all below `page` has no call for `page`. */
  lemma {:induction false} NoCallsBeyond(calls: seq<RenderCall>, page: nat)
    requires forall k :: 0 <= k < |calls| ==> calls[k].page < page
    ensures CallsFor(calls, page) == []
  {
    if calls != [] {
      NoCallsBeyond(calls[1..], page);
    }
  }

  // The document level of the adaptive strategy.

  /** The values of a whole document: every unit's values, in ascending unit index. */
  function DocValues<U, B>(e: Engine<U, B>, units: seq<U>, scale: real, fallback: Option<real>): seq<string> {
    Concat((u: U) => UnitValues(e, u, scale, fallback), units)
  }

  /** The render calls of a whole document, in call order. */
  function DocCalls<U, B>(e: Engine<U, B>, units: seq<U>, scale: real, fallback: Option<real>): seq<RenderCall> {
    Collect((i: nat, u: U) => UnitCalls(e, i, u, scale, fallback), units)
  }

  /** One more unit processed: the document's values and calls grow by that unit's. */
  lemma DocStep<U, B>(e: Engine<U, B>, units: seq<U>, i: nat, scale: real, fallback: Option<real>)
    requires i < |units|
    ensures DocValues(e, units[..i + 1], scale, fallback)
         == DocValues(e, units[..i], scale, fallback) + UnitValues(e, units[i], scale, fallback)
    ensures DocCalls(e, units[..i + 1], scale, fallback)
         == DocCalls(e, units[..i], scale, fallback) + UnitCalls(e, i, units[i], scale, fallback)
  {
    ConcatStep((u: U) => UnitValues(e, u, scale, fallback), units, i);
    CollectStep((j: nat, u: U) => UnitCalls(e, j, u, scale, fallback), units, i);
  }

  lemma UnitCallsTagged<U, B>(e: Engine<U, B>, units: seq<U>, scale: real, fallback: Option<real>)
    ensures IndexTagged((i: nat, u: U) => UnitCalls(e, i, u, scale, fallback), units)
  {
  }

  /** Pages are walked in index order, each rendered once or twice: the trace names only
      existing pages, in ascending order, and has between one and two calls per page. */
  lemma DocCallsShape<U, B>(e: Engine<U, B>, units: seq<U>, scale: real, fallback: Option<real>)
    ensures |units| <= |DocCalls(e, units, scale, fallback)| <= 2 * |units|
    ensures forall k :: 0 <= k < |DocCalls(e, units, scale, fallback)| ==>
      DocCalls(e, units, scale, fallback)[k].page < |units|
    ensures forall j, k :: 0 <= j < k < |DocCalls(e, units, scale, fallback)| ==>
      DocCalls(e, units, scale, fallback)[j].page <= DocCalls(e, units, scale, fallback)[k].page
  {
    var g := (i: nat, u: U) => UnitCalls(e, i, u, scale, fallback);
    UnitCallsTagged(e, units, scale, fallback);
    CollectInOrder(g, units);
    CollectLength(g, units);
  }

  /** The retry is per unit: the renders of page `i` are exactly those its own policy asks for,
      whatever happened on the other pages. */
  lemma DocCallsForPage<U, B>(e: Engine<U, B>, units: seq<U>, scale: real, fallback: Option<real>, i: nat)
    requires i < |units|
    ensures CallsFor(DocCalls(e, units, scale, fallback), i) == UnitCalls(e, i, units[i], scale, fallback)
  {
    UnitCallsTagged(e, units, scale, fallback);
    CollectFor((j: nat, u: U) => UnitCalls(e, j, u, scale, fallback), units, i);
  }

  /** A page whose primary decode finds something is rendered once, at the primary scale,
      and keeps its primary values. */
  lemma PrimaryHitRendersOnce<U, B>(e: Engine<U, B>, units: seq<U>, scale: real, fallback: Option<real>, i: nat)
    requires i < |units|
    requires Decode(e, units[i], scale) != []
    ensures CallsFor(DocCalls(e, units, scale, fallback), i) == [RenderCall(i, scale)]
    ensures UnitValues(e, units[i], scale, fallback) == Decode(e, units[i], scale)
  {
    DocCallsForPage(e, units, scale, fallback, i);
  }

  /** A page whose primary decode is empty is rendered a second time at the fallback scale
      when the policy allows it, and its values are the fallback decode alone. */
  lemma FallbackReplaces<U, B>(e: Engine<U, B>, units: seq<U>, scale: real, fallbackScale: real, i: nat)
    requires i < |units|
    requires Decode(e, units[i], scale) == []
    ensures CallsFor(DocCalls(e, units, scale, Some(fallbackScale)), i)
         == [RenderCall(i, scale), RenderCall(i, fallbackScale)]
    ensures UnitValues(e, units[i], scale, Some(fallbackScale)) == Decode(e, units[i], fallbackScale)
  {
    DocCallsForPage(e, units, scale, Some(fallbackScale), i);
  }

  /** Without a fallback, every page is rendered once and an empty page contributes nothing. */
  lemma NoFallbackWhenDisallowed<U, B>(e: Engine<U, B>, units: seq<U>, scale: real, i: nat)
    requires i < |units|
    ensures CallsFor(DocCalls(e, units, scale, None), i) == [RenderCall(i, scale)]
    ensures Decode(e, units[i], scale) == [] ==> UnitValues(e, units[i], scale, None) == []
  {
    DocCallsForPage(e, units, scale, None, i);
  }

  /** The document's values are the concatenation of its parts' values, in page order;
      a document without pages has none. */
  lemma DocValuesAppend<U, B>(e: Engine<U, B>, a: seq<U>, b: seq<U>, scale: real, fallback: Option<real>)
    ensures DocValues(e, [], scale, fallback) == []
    ensures DocValues(e, a + b, scale, fallback) == DocValues(e, a, scale, fallback) + DocValues(e, b, scale, fallback)
  {
    ConcatAppend((u: U) => UnitValues(e, u, scale, fallback), a, b);
  }

  /** Every value of the document is a non-empty string. */
  lemma {:induction false} DocValuesNonEmpty<U, B>(e: Engine<U, B>, units: seq<U>, scale: real, fallback: Option<real>)
    ensures forall s :: s in DocValues(e, units, scale, fallback) ==> s != ""
    decreases |units|
  {
    if units != [] {
      var n := |units| - 1;
      DocValuesNonEmpty(e, units[..n], scale, fallback);
      DocStep(e, units, n, scale, fallback);
      assert units[..n + 1] == units;
      var here := UnitValues(e, units[n], scale, fallback);
      assert forall k :: 0 <= k < |here| ==> here[k] != "";
    }
  }

  /** Pages that all yield nothing at either scale give an empty, non-error result. */
  lemma {:induction false} DocValuesEmpty<U, B>(e: Engine<U, B>, units: seq<U>, scale: real, fallback: Option<real>)
    requires forall i :: 0 <= i < |units| ==> Decode(e, units[i], scale) == []
    requires fallback.Some? ==> forall i :: 0 <= i < |units| ==> Decode(e, units[i], fallback.value) == []
    ensures DocValues(e, units, scale, fallback) == []
    decreases |units|
  {
    if units != [] {
      var n := |units| - 1;
      DocValuesEmpty(e, units[..n], scale, fallback);
      DocStep(e, units, n, scale, fallback);
      assert units[..n + 1] == units;
    }
  }
}

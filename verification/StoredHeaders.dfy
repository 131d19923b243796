/** The header as its columns keep it, and what recomputing a closed trade from it costs. */
module StoredHeaders {
  import opened Wrappers
  import opened Decimals
  import opened Calculations

  /** Twice the largest error of one stored amount. */
  const UNIT: real := 0.0000000001

  /** The header as numeric(30, 10) columns keep it. */
  function StoreHeader(h: Header): Header {
    h.(entryPrice := Clean(h.entryPrice),
       exitPrice := (if h.exitPrice.None? then None else Some(Clean(h.exitPrice.value))),
       size := Clean(h.size), fees := Clean(h.fees), terms := StoreTerms(h.terms))
  }

  function StoreTerms(t: Terms): Terms {
    t.(risk := (if t.risk.None? then None else Some(Clean(t.risk.value))), fx := Clean(t.fx))
  }

  predicate TenTerms(t: Terms) {
    Ten(t.fx) && (t.risk.Some? ==> Ten(t.risk.value))
  }

  /** Amounts that storing does not change. */
  predicate TenHeader(h: Header) {
    Ten(h.entryPrice) && (h.exitPrice.Some? ==> Ten(h.exitPrice.value)) && Ten(h.size) && Ten(h.fees)
  }

  lemma StoringTerms(t: Terms)
    ensures StoreTerms(t) == t <==> TenTerms(t)
    ensures TenTerms(StoreTerms(t))
  {
    CleanFixesExactlyTen(t.fx);
    CleanIsTen(t.fx);
    if t.risk.Some? {
      CleanFixesExactlyTen(t.risk.value);
      CleanIsTen(t.risk.value);
    }
  }

  lemma StoringHeader(h: Header)
    ensures StoreHeader(h) == h.(terms := StoreTerms(h.terms)) <==> TenHeader(h)
    ensures TenHeader(StoreHeader(h))
  {
    CleanFixesExactlyTen(h.entryPrice);
    CleanFixesExactlyTen(h.size);
    CleanFixesExactlyTen(h.fees);
    CleanIsTen(h.entryPrice);
    CleanIsTen(h.size);
    CleanIsTen(h.fees);
    if h.exitPrice.Some? {
      CleanFixesExactlyTen(h.exitPrice.value);
      CleanIsTen(h.exitPrice.value);
    }
  }

  /** A closed position whose size the columns represent, and whose stored entry price is not zero. */
  predicate Storable(d: Digest) {
    && Tradable(d) && d.exitQuantity == d.entryQuantity && d.exitNotional >= 0.0
    && Ten(d.entryQuantity) && Clean(d.entryNotional / d.entryQuantity) > 0.0
  }

  /** The unrounded gross result, from the fills and from the stored header. */
  function FromFills(d: Digest, terms: Terms): real
    requires Storable(d)
  {
    PositiveRatio(d.entryNotional, d.entryQuantity);
    Gross(d.entryNotional / d.entryQuantity, d.exitNotional / d.entryQuantity, d.entryQuantity, terms)
  }

  function FromStored(d: Digest, terms: Terms): real
    requires Storable(d)
  {
    Gross(Clean(d.entryNotional / d.entryQuantity), Clean(d.exitNotional / d.entryQuantity), d.entryQuantity, terms)
  }

  lemma AveragesOf(d: Digest)
    requires Storable(d)
    ensures d.entryNotional / d.entryQuantity > 0.0 && d.exitNotional / d.entryQuantity >= 0.0
  {
    PositiveRatio(d.entryNotional, d.entryQuantity);
    assert d.exitNotional / d.entryQuantity * d.entryQuantity == d.exitNotional;
  }

  /** The stored columns with the terms as they are submitted, rounded or not. */
  function Kept(d: Digest, terms: Terms): Header
    requires Storable(d)
  {
    StoreHeader(Summary(d, terms)).(terms := terms)
  }

  lemma KeptOfAny(d: Digest, terms: Terms, other: Terms)
    requires Storable(d)
    ensures StoreHeader(Summary(d, other)).(terms := terms) == Kept(d, terms)
    ensures TenTerms(terms) ==> StoreHeader(Summary(d, terms)) == Kept(d, terms)
  {
    StoringTerms(terms);
  }

  lemma BothResults(d: Digest, terms: Terms)
    requires Storable(d)
    ensures CalculateTrade(Kept(d, terms))
         == Ok(Finish(FromStored(d, terms), Clean(d.fees), terms, d.entryAt.value, d.exitAt.value))
    ensures Settle(d, terms) == Ok(Finish(FromFills(d, terms), d.fees, terms, d.entryAt.value, d.exitAt.value))
    ensures CalculateTrade(StoreHeader(Summary(d, terms)))
         == Ok(Finish(FromStored(d, terms), Clean(d.fees), StoreTerms(terms), d.entryAt.value, d.exitAt.value))
  {
    hide Finish, Clean, Ten;
    PositiveRatio(d.entryNotional, d.entryQuantity);
    CleanFixesExactlyTen(d.entryQuantity);
    StoredGross(Clean(d.entryNotional / d.entryQuantity), Clean(d.exitNotional / d.entryQuantity), d.entryQuantity, terms);
    hide Gross;
  }

  /** Storing the terms keeps the side and the basis. */
  lemma StoredGross(e: real, x: real, q: real, terms: Terms)
    requires e > 0.0
    ensures Gross(e, x, q, StoreTerms(terms)) == Gross(e, x, q, terms)
  {
  }

  // ---- when nothing is lost ----

  /** The rounding errors of the two average prices cancel: equal on the quantity basis, in the ratio of
      the prices on the amount basis. */
  predicate ErrorsCancel(e: real, x: real, basis: Basis) {
    if basis.Quantity? then Clean(x) - x == Clean(e) - e else Clean(x) * e == x * Clean(e)
  }

  /** The unrounded gross result survives storing exactly when the errors cancel. */
  lemma GrossSurvivesIff(e: real, x: real, q: real, terms: Terms)
    requires e > 0.0 && Clean(e) > 0.0 && q > 0.0
    ensures Gross(Clean(e), Clean(x), q, terms) == Gross(e, x, q, terms) <==> ErrorsCancel(e, x, terms.basis)
  {
    hide Gross, Clean;
    SameGrossIff(e, x, Clean(e), Clean(x), q, terms);
  }

  lemma SameGrossIff(e: real, x: real, e': real, x': real, q: real, terms: Terms)
    requires e > 0.0 && e' > 0.0 && q > 0.0
    ensures Gross(e', x', q, terms) == Gross(e, x, q, terms) <==>
      if terms.basis.Quantity? then x' - x == e' - e else x' * e == x * e'
  {
    hide Gross, Move;
    MoveIs(e, x, terms.side);
    MoveIs(e', x', terms.side);
    if terms.basis.Quantity? {
      GrossIsMoveTimesSize(e, x, q, terms);
      GrossIsMoveTimesSize(e', x', q, terms);
      SameProductIff(Move(e', x', terms.side), Move(e, x, terms.side), q);
    } else {
      GrossIsRelative(e, x, q, terms);
      GrossIsRelative(e', x', q, terms);
      SameProductIff(x' / e', x / e, q);
      SameRatioIff(x', e', x, e);
    }
  }

  lemma GrossIsMoveTimesSize(e: real, x: real, q: real, terms: Terms)
    requires terms.basis.Quantity?
    ensures Gross(e, x, q, terms) == Move(e, x, terms.side) * q
  {
  }

  lemma GrossIsRelative(e: real, x: real, q: real, terms: Terms)
    requires terms.basis.Notional? && e > 0.0
    ensures Gross(e, x, q, terms) == (x / e * q - q) * Direction(terms.side)
  {
    hide Gross, Move;
    assert x == x / e * e;
    GainOver(e, x, q, x / e);
    GrossOnNotional(e, x, q, terms, (x - e) / e * q);
  }

  lemma SameProductIff(a: real, b: real, q: real)
    requires q > 0.0
    ensures a * q == b * q <==> a == b
  {
    if a * q == b * q {
      CancelFactor(a, b, q);
    }
  }

  lemma SameRatioIff(x': real, e': real, x: real, e: real)
    requires e > 0.0 && e' > 0.0
    ensures x' / e' == x / e <==> x' * e == x * e'
  {
    var r', r := x' / e', x / e;
    assert r' * e' == x' && r * e == x;
    CrossProducts(r', r, e', e);
    PositiveProduct(e', e);
    SameProductIff(r', r, e' * e);
  }

  lemma CrossProducts(r': real, r: real, e': real, e: real)
    ensures r' * e' * e == r' * (e' * e) && r * e * e' == r * (e' * e)
  {
    Associates(r', e', e);
    Associates(r, e, e');
    assert e * e' == e' * e;
  }

  /** How far storing moves the unrounded gross result, from the rounding errors of the two average prices. */
  function Shift(e: real, x: real, q: real, terms: Terms): real
    requires e > 0.0 && Clean(e) > 0.0
  {
    ShiftBetween(e, x, Clean(e), Clean(x), q, terms)
  }

  function ShiftBetween(e: real, x: real, e': real, x': real, q: real, terms: Terms): real
    requires e > 0.0 && e' > 0.0
  {
    PositiveProduct(e, e');
    if terms.basis.Quantity?
    then ((x' - x) - (e' - e)) * q * Direction(terms.side)
    else (x' * e - x * e') / (e * e') * q * Direction(terms.side)
  }

  function ShiftOf(d: Digest, terms: Terms): real
    requires Storable(d)
  {
    AveragesOf(d);
    Shift(d.entryNotional / d.entryQuantity, d.exitNotional / d.entryQuantity, d.entryQuantity, terms)
  }

  lemma StoredIsShifted(d: Digest, terms: Terms)
    requires Storable(d)
    ensures FromStored(d, terms) == FromFills(d, terms) + ShiftOf(d, terms)
  {
    AveragesOf(d);
    hide Gross, Shift, Clean;
    GrossShifts(d.entryNotional / d.entryQuantity, d.exitNotional / d.entryQuantity, d.entryQuantity, terms);
  }

  lemma GrossShifts(e: real, x: real, q: real, terms: Terms)
    requires e > 0.0 && Clean(e) > 0.0 && q > 0.0
    ensures Gross(Clean(e), Clean(x), q, terms) == Gross(e, x, q, terms) + Shift(e, x, q, terms)
  {
    hide Gross, Clean, ShiftBetween;
    if terms.basis.Quantity? {
      QuantityShifts(e, x, Clean(e), Clean(x), q, terms);
    } else {
      NotionalShifts(e, x, Clean(e), Clean(x), q, terms);
    }
  }

  lemma QuantityShifts(e: real, x: real, e': real, x': real, q: real, terms: Terms)
    requires terms.basis.Quantity? && e > 0.0 && e' > 0.0
    ensures Gross(e', x', q, terms) == Gross(e, x, q, terms) + ShiftBetween(e, x, e', x', q, terms)
  {
    hide Gross, Move;
    MoveIs(e, x, terms.side);
    MoveIs(e', x', terms.side);
    GrossIsMoveTimesSize(e, x, q, terms);
    GrossIsMoveTimesSize(e', x', q, terms);
    DifferenceTimes(Move(e', x', terms.side), Move(e, x, terms.side), q);
    var error := (x' - x) - (e' - e);
    NegateProduct(error, q);
    assert Move(e', x', terms.side) - Move(e, x, terms.side) == if terms.side.Long? then error else -error;
  }

  lemma NotionalShifts(e: real, x: real, e': real, x': real, q: real, terms: Terms)
    requires terms.basis.Notional? && e > 0.0 && e' > 0.0
    ensures Gross(e', x', q, terms) == Gross(e, x, q, terms) + ShiftBetween(e, x, e', x', q, terms)
  {
    hide Gross, Move;
    PositiveProduct(e, e');
    GrossIsRelative(e, x, q, terms);
    GrossIsRelative(e', x', q, terms);
    RatioDifference(x', e', x, e);
    DifferenceTimes(x' / e', x / e, q);
    SignedSum(x' / e' * q, x / e * q, q, terms.side);
  }

  lemma SignedSum(a: real, b: real, c: real, side: Side)
    ensures (a - c) * Direction(side) == (b - c) * Direction(side) + (a - b) * Direction(side)
  {
    assert side.Long? ==> Direction(side) == 1.0;
  }

  lemma RatioDifference(x': real, e': real, x: real, e: real)
    requires e > 0.0 && e' > 0.0 && e * e' > 0.0
    ensures (x' * e - x * e') / (e * e') == x' / e' - x / e
  {
    var r', r := x' / e', x / e;
    assert r' * e' == x' && r * e == x;
    CrossProducts(r', r, e', e);
    Commutes(e, e');
    DifferenceTimes(r', r, e * e');
    UniqueQuotient(x' * e - x * e', e * e', r' - r);
  }

  /** If the errors cancel, recomputing a closed trade from its stored header gives all six results of its fills. */
  lemma StoredHeaderIsFaithful(d: Digest, terms: Terms)
    requires Storable(d) && Ten(d.fees)
    ensures FromStored(d, terms) == FromFills(d, terms) <==>
      ErrorsCancel(d.entryNotional / d.entryQuantity, d.exitNotional / d.entryQuantity, terms.basis)
    ensures ErrorsCancel(d.entryNotional / d.entryQuantity, d.exitNotional / d.entryQuantity, terms.basis) ==>
      CalculateTrade(Kept(d, terms)) == Settle(d, terms)
  {
    BothResults(d, terms);
    PositiveRatio(d.entryNotional, d.entryQuantity);
    CleanFixesExactlyTen(d.fees);
    hide Gross, Clean, Settle, CalculateTrade, ErrorsCancel, Kept, Finish, Tradable, Ten;
    GrossSurvivesIff(d.entryNotional / d.entryQuantity, d.exitNotional / d.entryQuantity, d.entryQuantity, terms);
  }

  /** A shift so small that neither an amount crosses a rounding boundary nor the net result changes sides of zero. */
  predicate Unmoved(gross: real, shift: real, fees: real, terms: Terms) {
    Clean(gross + shift) == Clean(gross) && NetUnmoved(gross - fees, shift, terms)
  }

  predicate NetUnmoved(net: real, shift: real, terms: Terms) {
    && Clean(net + shift) == Clean(net) && (net + shift > 0.0 <==> net > 0.0)
    && CnyUnmoved(net, shift, terms.fx) && RUnmoved(net, shift, terms.risk)
  }

  predicate CnyUnmoved(net: real, shift: real, fx: real) {
    Clean(net * fx + shift * fx) == Clean(net * fx)
  }

  predicate RUnmoved(net: real, shift: real, risk: Option<real>) {
    risk.Some? && risk.value > 0.0 ==> Clean(net / risk.value + shift / risk.value) == Clean(net / risk.value)
  }

  /** In between, exactly: the six results of the stored header are those of the fills if and only if the shift
      that the two rounding errors cause moves none of them. */
  lemma StoredHeaderIsFaithfulIff(d: Digest, terms: Terms)
    requires Storable(d) && Ten(d.fees)
    ensures CalculateTrade(Kept(d, terms)) == Settle(d, terms) <==> Unmoved(FromFills(d, terms), ShiftOf(d, terms), d.fees, terms)
  {
    hide Gross, Clean, Settle, CalculateTrade, Kept, Ten, Finish, Unmoved, ShiftOf, FromFills, FromStored;
    BothResults(d, terms);
    CleanFixesExactlyTen(d.fees);
    StoredIsShifted(d, terms);
    SameFinishIff(FromFills(d, terms), ShiftOf(d, terms), d.fees, terms, d.entryAt.value, d.exitAt.value);
  }

  lemma SameFinishIff(gross: real, shift: real, fees: real, terms: Terms, entryAt: int, exitAt: int)
    ensures Finish(gross + shift, fees, terms, entryAt, exitAt) == Finish(gross, fees, terms, entryAt, exitAt)
       <==> Unmoved(gross, shift, fees, terms)
  {
    hide Clean, HoldMinutes, Converted, RMultiple, NetUnmoved;
    SameNetIff(gross + shift - fees, gross - fees, shift, terms);
  }

  lemma SameNetIff(moved: real, net: real, shift: real, terms: Terms)
    requires moved == net + shift
    ensures NetUnmoved(net, shift, terms) <==>
      && Clean(moved) == Clean(net) && Converted(moved, terms.fx) == Converted(net, terms.fx)
      && RMultiple(moved, terms.risk) == RMultiple(net, terms.risk) && (moved > 0.0 <==> net > 0.0)
  {
    hide Clean, Converted, RMultiple, CnyUnmoved, RUnmoved;
    SameClean(moved, net + shift);
    ConvertedShift(moved, net, shift, terms.fx);
    RMultipleShift(moved, net, shift, terms.risk);
  }

  lemma ConvertedShift(moved: real, net: real, shift: real, fx: real)
    requires moved == net + shift
    ensures Converted(moved, fx) == Converted(net, fx) <==> CnyUnmoved(net, shift, fx)
  {
    hide Clean;
    SumTimes(net, shift, fx, moved);
    SameClean(moved * fx, net * fx + shift * fx);
  }

  lemma SameClean(a: real, b: real)
    requires a == b
    ensures Clean(a) == Clean(b)
  {
    hide Clean;
  }

  lemma RMultipleShift(moved: real, net: real, shift: real, risk: Option<real>)
    requires moved == net + shift
    ensures RMultiple(moved, risk) == RMultiple(net, risk) <==> RUnmoved(net, shift, risk)
  {
    hide Clean;
    if risk.Some? && risk.value > 0.0 {
      SumOverQ(net, shift, risk.value);
      SameClean(moved / risk.value, net / risk.value + shift / risk.value);
    }
  }

  lemma SumTimes(a: real, b: real, c: real, sum: real)
    requires sum == a + b
    ensures sum * c == a * c + b * c
  {
  }

  /** A shift of more than one unit of the tenth decimal is always seen, in the gross result itself: so whatever
      the rates and risks on either side. */
  lemma ShiftIsSeen(d: Digest, terms: Terms, other: Terms)
    requires Storable(d) && other.side == terms.side && other.basis == terms.basis
    requires !Near(ShiftOf(d, terms), 0.0, UNIT)
    ensures CalculateTrade(Kept(d, terms)) != Settle(d, other)
    ensures CalculateTrade(StoreHeader(Summary(d, terms))) != Settle(d, other)
  {
    hide Gross, Clean, Settle, CalculateTrade, Kept, Tradable, Ten, ShiftOf, Summary, StoreHeader;
    BothResults(d, terms);
    BothResults(d, other);
    StoredIsShifted(d, terms);
    SameFromFills(d, terms, other);
    FarApart(FromStored(d, terms), FromFills(d, terms));
  }

  lemma SameFromFills(d: Digest, terms: Terms, other: Terms)
    requires Storable(d) && other.side == terms.side && other.basis == terms.basis
    ensures FromFills(d, other) == FromFills(d, terms)
  {
  }

  lemma FarApart(a: real, b: real)
    requires !Near(a - b, 0.0, UNIT)
    ensures Clean(a) != Clean(b)
  {
    var x, y := Clean(a), Clean(b);
    hide Clean;
    assert HALF_UNIT == 0.00000000005;
  }

  /** They do when the averages have ten decimals. */
  lemma TenAveragesAreFaithful(d: Digest, terms: Terms)
    requires Storable(d) && Ten(d.fees) && Ten(d.entryNotional / d.entryQuantity) && Ten(d.exitNotional / d.entryQuantity)
    ensures CalculateTrade(Kept(d, terms)) == Settle(d, terms)
  {
    CleanFixesExactlyTen(d.entryNotional / d.entryQuantity);
    CleanFixesExactlyTen(d.exitNotional / d.entryQuantity);
    StoredHeaderIsFaithful(d, terms);
  }

  // ---- how much can be lost ----

  predicate Near(a: real, b: real, bound: real) {
    -bound <= a - b <= bound
  }

  /** How far rounding two average prices can move an unrounded gross result. */
  function Drift(e: real, x: real, q: real, basis: Basis): real
    requires e > 0.0 && Clean(e) > 0.0
  {
    if basis.Quantity? then UNIT * q else HALF_UNIT * (1.0 + x / e) / Clean(e) * q
  }

  /** Two calculations that differ by no more than an unrounded gross result moved by `drift` explains. */
  predicate Close(a: Calculation, b: Calculation, drift: real, terms: Terms) {
    && a.Settled? && b.Settled? && a.minutes == b.minutes
    && Near(a.gross, b.gross, drift + UNIT) && Near(a.net, b.net, drift + UNIT)
    && Near(a.cny, b.cny, drift * terms.fx + UNIT)
    && (if terms.risk.Some? && terms.risk.value > 0.0
        then a.r.Some? && b.r.Some? && Near(a.r.value, b.r.value, drift / terms.risk.value + UNIT)
        else a.r.None? && b.r.None?)
    && (a.winning != b.winning ==> Near(b.net, 0.0, drift + UNIT))
  }

  function DriftOf(d: Digest, terms: Terms): real
    requires Storable(d)
  {
    AveragesOf(d);
    Drift(d.entryNotional / d.entryQuantity, d.exitNotional / d.entryQuantity, d.entryQuantity, terms.basis)
  }

  /** All results recomputed from the stored header are within the drift of those of the fills, on both bases:
      gross and net by the drift itself, CNY by the drift at the exchange rate, R by the drift per risk. */
  lemma StoredHeaderDrift(d: Digest, terms: Terms)
    requires Storable(d) && Ten(d.fees) && terms.fx > 0.0
    ensures TenTerms(terms) ==> StoreHeader(Summary(d, terms)) == Kept(d, terms)
    ensures var stored, exact := CalculateTrade(Kept(d, terms)), Settle(d, terms);
      stored.Ok? && exact.Ok? && Close(stored.value, exact.value, DriftOf(d, terms), terms)
  {
    BothResults(d, terms);
    CleanFixesExactlyTen(d.fees);
    KeptOfAny(d, terms, terms);
    hide Gross, Clean, Settle, CalculateTrade, Kept, Summary, StoreHeader, Finish, Tradable, Ten, TenTerms, Drift, Close;
    GrossDrift(d, terms);
    FinishClose(FromFills(d, terms), FromStored(d, terms), d.fees, terms, d.entryAt.value, d.exitAt.value, DriftOf(d, terms));
  }

  /** The gross result is, whatever the fees and terms are. */
  lemma StoredGrossDrift(d: Digest, terms: Terms)
    requires Storable(d)
    ensures var stored, exact := CalculateTrade(StoreHeader(Summary(d, terms))), Settle(d, terms);
      && stored.Ok? && stored.value.Settled? && exact.Ok? && exact.value.Settled?
      && Near(stored.value.gross, exact.value.gross, DriftOf(d, terms) + UNIT)
  {
    BothResults(d, terms);
    hide Gross, Clean, Settle, CalculateTrade, Summary, StoreHeader, Tradable, Ten, Drift, HoldMinutes;
    GrossDrift(d, terms);
    CleanNear(FromStored(d, terms), FromFills(d, terms), DriftOf(d, terms));
  }

  lemma GrossDrift(d: Digest, terms: Terms)
    requires Storable(d)
    ensures Near(FromStored(d, terms), FromFills(d, terms), DriftOf(d, terms))
  {
    AveragesOf(d);
    hide Gross, Drift, Near;
    GrossMoves(d.entryNotional / d.entryQuantity, d.exitNotional / d.entryQuantity, d.entryQuantity, terms);
  }

  lemma GrossMoves(e: real, x: real, q: real, terms: Terms)
    requires e > 0.0 && x >= 0.0 && Clean(e) > 0.0 && q > 0.0
    ensures Near(Gross(Clean(e), Clean(x), q, terms), Gross(e, x, q, terms), Drift(e, x, q, terms.basis))
  {
    var e', x' := Clean(e), Clean(x);
    hide Gross, Move, Clean;
    if terms.basis.Quantity? {
      QuantityMoves(e', x', e, x, q, terms);
    } else {
      NotionalMoves(e', x', e, x, q, terms);
    }
  }

  lemma QuantityMoves(e': real, x': real, e: real, x: real, q: real, terms: Terms)
    requires terms.basis.Quantity? && Near(x', x, HALF_UNIT) && Near(e', e, HALF_UNIT) && q > 0.0
    ensures Near(Gross(e', x', q, terms), Gross(e, x, q, terms), UNIT * q)
  {
    hide Gross, Move;
    GrossIsMoveTimesSize(e, x, q, terms);
    GrossIsMoveTimesSize(e', x', q, terms);
    MoveIs(e, x, terms.side);
    MoveIs(e', x', terms.side);
    ProductNear(Move(e', x', terms.side), Move(e, x, terms.side), UNIT, q);
  }

  lemma NotionalMoves(e': real, x': real, e: real, x: real, q: real, terms: Terms)
    requires terms.basis.Notional? && Near(x', x, HALF_UNIT) && Near(e', e, HALF_UNIT)
    requires q > 0.0 && e > 0.0 && e' > 0.0 && x >= 0.0
    ensures Near(Gross(e', x', q, terms), Gross(e, x, q, terms), HALF_UNIT * (1.0 + x / e) / e' * q)
  {
    hide Gross, Move;
    GrossIsRelative(e, x, q, terms);
    GrossIsRelative(e', x', q, terms);
    RatioNear(x', e', x, e);
    ProductNear(x' / e', x / e, HALF_UNIT * (1.0 + x / e) / e', q);
    SignedNear(Gross(e', x', q, terms), Gross(e, x, q, terms), x' / e' * q, x / e * q, q,
               HALF_UNIT * (1.0 + x / e) / e' * q, terms.side);
  }

  lemma SignedNear(left: real, right: real, a: real, b: real, c: real, bound: real, side: Side)
    requires Near(a, b, bound) && left == (a - c) * Direction(side) && right == (b - c) * Direction(side)
    ensures Near(left, right, bound)
  {
    assert left == if side.Long? then a - c else c - a;
    assert right == if side.Long? then b - c else c - b;
  }

  lemma ProductNear(a: real, b: real, bound: real, q: real)
    requires Near(a, b, bound) && q >= 0.0
    ensures Near(a * q, b * q, bound * q)
  {
    Scaled(a - b, bound, q);
    DifferenceTimes(a, b, q);
  }

  /** Rounding both terms of a ratio. */
  lemma RatioNear(x': real, e': real, x: real, e: real)
    requires e > 0.0 && e' > 0.0 && x >= 0.0 && Near(x', x, HALF_UNIT) && Near(e', e, HALF_UNIT)
    ensures Near(x' / e', x / e, HALF_UNIT * (1.0 + x / e) / e')
  {
    var r := x / e;
    assert r * e == x;
    NonNegativeRatio(x, e);
    ErrorNear(x', e', x, e, r);
    ErrorRatio(x', e', r, x' - r * e');
    DividedNear(x' - r * e', HALF_UNIT * (1.0 + r), e');
  }

  lemma ErrorNear(x': real, e': real, x: real, e: real, r: real)
    requires r >= 0.0 && x == r * e && Near(x', x, HALF_UNIT) && Near(e', e, HALF_UNIT)
    ensures Near(x' - r * e', 0.0, HALF_UNIT * (1.0 + r))
  {
    ProductNear(e', e, HALF_UNIT, r);
    Distribute(HALF_UNIT, 1.0, r);
    Commutes(e, r);
    Commutes(e', r);
    Chained(x', x, r * e', HALF_UNIT, HALF_UNIT * r, HALF_UNIT * (1.0 + r));
  }

  lemma Commutes(x: real, y: real)
    ensures x * y == y * x
  {
  }

  lemma Chained(a: real, b: real, c: real, first: real, second: real, both: real)
    requires Near(a, b, first) && Near(c, b, second) && both == first + second
    ensures Near(a - c, 0.0, both)
  {
  }

  lemma NonNegativeRatio(x: real, q: real)
    requires x >= 0.0 && q > 0.0
    ensures x / q >= 0.0
  {
    assert x / q * q == x;
  }

  lemma ErrorRatio(x': real, e': real, r: real, error: real)
    requires e' > 0.0 && error == x' - r * e'
    ensures x' / e' - r == error / e'
  {
    var p := x' / e';
    assert p * e' == x';
    DifferenceTimes(p, r, e');
    UniqueQuotient(error, e', p - r);
  }

  lemma DividedNear(a: real, bound: real, q: real)
    requires Near(a, 0.0, bound) && q > 0.0
    ensures Near(a / q, 0.0, bound / q)
  {
    NonNegativeRatio(bound - a, q);
    NonNegativeRatio(a + bound, q);
    SumOverQ(bound, -a, q);
    SumOverQ(a, bound, q);
    SumOverQ(a, -a, q);
  }

  lemma SumOverQ(a: real, b: real, q: real)
    requires q > 0.0
    ensures (a + b) / q == a / q + b / q
  {
    var x, y := a / q, b / q;
    assert x * q == a && y * q == b;
    Distribute(q, x, y);
    UniqueQuotient(a + b, q, x + y);
  }

  lemma CleanNear(a: real, b: real, bound: real)
    requires Near(a, b, bound)
    ensures Near(Clean(a), Clean(b), bound + UNIT)
  {
    var x, y := Clean(a), Clean(b);
    hide Clean;
    assert HALF_UNIT == 0.00000000005;
  }

  /** What a moved gross result moves. */
  lemma FinishClose(gross: real, moved: real, fees: real, terms: Terms, entryAt: int, exitAt: int, drift: real)
    requires Near(moved, gross, drift) && terms.fx > 0.0
    ensures Close(Finish(moved, fees, terms, entryAt, exitAt), Finish(gross, fees, terms, entryAt, exitAt), drift, terms)
  {
    hide Clean, HoldMinutes, Converted, RMultiple;
    var net, movedNet := gross - fees, moved - fees;
    assert Near(movedNet, net, drift) by { NearLess(moved, gross, fees, drift); }
    CleanNear(moved, gross, drift);
    CleanNear(movedNet, net, drift);
    CnyNear(movedNet, net, drift, terms.fx);
    RNear(movedNet, net, drift, terms.risk);
    if (movedNet > 0.0) != (net > 0.0) {
      FlipNear(movedNet, net, drift);
    }
  }

  lemma NearLess(a: real, b: real, c: real, bound: real)
    requires Near(a, b, bound)
    ensures Near(a - c, b - c, bound)
  {
  }

  lemma CnyNear(moved: real, net: real, drift: real, fx: real)
    requires Near(moved, net, drift) && fx > 0.0
    ensures Near(Converted(moved, fx), Converted(net, fx), drift * fx + UNIT)
  {
    hide Clean, Near;
    ProductNear(moved, net, drift, fx);
    CleanNear(moved * fx, net * fx, drift * fx);
  }

  lemma RNear(moved: real, net: real, drift: real, risk: Option<real>)
    requires Near(moved, net, drift)
    ensures var a, b := RMultiple(moved, risk), RMultiple(net, risk);
      if risk.Some? && risk.value > 0.0
      then a.Some? && b.Some? && Near(a.value, b.value, drift / risk.value + UNIT)
      else a.None? && b.None?
  {
    hide Clean;
    if risk.Some? && risk.value > 0.0 {
      var q := risk.value;
      QuotientNear(moved, net, drift, q);
      CleanNear(moved / q, net / q, drift / q);
    }
  }

  lemma QuotientNear(a: real, b: real, bound: real, q: real)
    requires Near(a, b, bound) && q > 0.0
    ensures Near(a / q, b / q, bound / q)
  {
    DividedNear(a - b, bound, q);
    SumOverQ(a - b, b, q);
  }

  /** A result whose sign the move flips is near zero. */
  lemma FlipNear(moved: real, net: real, drift: real)
    requires Near(moved, net, drift) && (moved > 0.0) != (net > 0.0)
    ensures Near(Clean(net), 0.0, drift + UNIT)
  {
    hide Clean;
    CleanNear(net, 0.0, drift);
    CleanOfZero();
  }

  lemma CleanOfZero()
    ensures Clean(0.0) == 0.0
  {
    RoundHalfUpUnique(0.0, 0);
  }

  // ---- and something is lost ----

  lemma DigestOfThree(a: Fill, b: Fill, c: Fill)
    ensures DigestOf([a, b, c]) == Plus(One(a), Plus(One(b), One(c)))
  {
    assert [a, b, c] == [a] + ([b] + [c]);
    DigestSplit([a], [b] + [c]);
    DigestSplit([b], [c]);
    assert DigestOf([a]) == One(a) && DigestOf([b]) == One(b) && DigestOf([c]) == One(c);
  }

  /** The drift is real: 1 @ 1 and 2 @ 2 in, 3 @ 2 out earns exactly 1, but 0.9999999999 from the stored header. */
  lemma StoredHeaderCanDiffer(a: Fill, b: Fill, c: Fill, d: Digest, terms: Terms)
    requires a == Fill(Entry, 0, 1.0, 1.0, 0.0, 1) && b == Fill(Entry, 0, 2.0, 2.0, 0.0, 1) && c == Fill(Exit, 60000000, 2.0, 3.0, 0.0, 1)
    requires d == Digest(Some(0), Some(60000000), 3.0, 3.0, 5.0, 6.0, 0.0, 4, 2) && terms == Terms(Long, Quantity, None, 1.0)
    ensures DigestOf([a, b, c]) == d && Tradable(d)
    ensures Settle(d, terms).Ok? && Settle(d, terms).value.Settled? && Settle(d, terms).value.gross == 1.0
    ensures var stored := CalculateTrade(StoreHeader(Summary(d, terms)));
      stored.Ok? && stored.value.Settled? && stored.value.gross == 0.9999999999
  {
    ThirdsDigest(a, b, c, d);
    ThirdsDiffer(d, terms);
  }

  lemma ThirdsDigest(a: Fill, b: Fill, c: Fill, d: Digest)
    requires a == Fill(Entry, 0, 1.0, 1.0, 0.0, 1) && b == Fill(Entry, 0, 2.0, 2.0, 0.0, 1) && c == Fill(Exit, 60000000, 2.0, 3.0, 0.0, 1)
    requires d == Digest(Some(0), Some(60000000), 3.0, 3.0, 5.0, 6.0, 0.0, 4, 2)
    ensures DigestOf([a, b, c]) == d
  {
    DigestOfThree(a, b, c);
  }

  lemma ThirdsDiffer(d: Digest, terms: Terms)
    requires d == Digest(Some(0), Some(60000000), 3.0, 3.0, 5.0, 6.0, 0.0, 4, 2) && terms == Terms(Long, Quantity, None, 1.0)
    ensures Tradable(d)
    ensures Settle(d, terms).Ok? && Settle(d, terms).value.Settled? && Settle(d, terms).value.gross == 1.0
    ensures var stored := CalculateTrade(StoreHeader(Summary(d, terms)));
      stored.Ok? && stored.value.Settled? && stored.value.gross == 0.9999999999
  {
    RoundedThirds();
    CleanFixesExactlyTen(3.0);
    hide Clean, RoundHalfUp, Settle, CalculateTrade, StoreHeader, Summary, Gross, HoldMinutes;
    BothResults(d, terms);
    GrossOfThirds(terms);
  }

  lemma GrossOfThirds(terms: Terms)
    requires terms == Terms(Long, Quantity, None, 1.0)
    ensures Gross(5.0 / 3.0, 6.0 / 3.0, 3.0, terms) == 1.0 && Gross(1.6666666667, 2.0, 3.0, terms) == 0.9999999999
  {
  }

  lemma RoundedThirds()
    ensures Clean(1.0) == 1.0 && Clean(6.0 / 3.0) == 2.0 && Clean(3.0) == 3.0
    ensures Clean(0.9999999999) == 0.9999999999 && Clean(5.0 / 3.0) == 1.6666666667
  {
    RoundHalfUpUnique(5.0 / 3.0 * SCALE, 16666666667);
    RoundHalfUpUnique(9999999999.0, 9999999999);
    RoundHalfUpUnique(SCALE, 10000000000);
    RoundHalfUpUnique(20000000000.0, 20000000000);
    RoundHalfUpUnique(30000000000.0, 30000000000);
  }
}

/** The two profit-and-loss calculators and the algebra of fills. */
module Calculations {
  import opened Wrappers
  import opened Decimals

  datatype Action = Entry | Exit
  datatype Side = Long | Short
  datatype Basis = Quantity | Notional
  datatype Status = Open | PartiallyClosed | Closed

  /** One execution; `at` is in microseconds, and of the reason only the number of characters matters here. */
  datatype Fill = Fill(action: Action, at: int, price: real, quantity: real, fee: real, reason: nat)

  /** The columns of a trade that no fill determines. */
  datatype Terms = Terms(side: Side, basis: Basis, risk: Option<real>, fx: real)

  /** The columns of a trade that summarise its fills; the two reasons by their length, 0 for null. */
  datatype Header = Header(status: Status, entryAt: int, exitAt: Option<int>, entryPrice: real,
                           exitPrice: Option<real>, size: real, fees: real,
                           entryReason: nat, exitReason: nat, terms: Terms)

  /** The six result columns; all are null together, except that r may be null alone. */
  datatype Calculation =
    | Unsettled
    | Settled(gross: real, net: real, cny: real, r: Option<real>, minutes: nat, winning: bool)

  function Direction(side: Side): real {
    if side.Long? then 1.0 else -1.0
  }

  function Opposite(side: Side): Side {
    if side.Long? then Short else Long
  }

  /** Whole minutes to the nearest, half up, and never negative. */
  function HoldMinutes(entryAt: int, exitAt: int): (minutes: nat)
    ensures exitAt >= entryAt ==> -30000000 < 60000000 * minutes - (exitAt - entryAt) <= 30000000
    ensures exitAt <= entryAt ==> minutes == 0
  {
    var elapsed := RoundHalfUp((exitAt - entryAt) as real / 60000000.0);
    if elapsed < 0 then 0 else elapsed
  }

  function Converted(net: real, fx: real): real {
    Clean(net * fx)
  }

  function RMultiple(net: real, risk: Option<real>): Option<real> {
    if risk.Some? && risk.value > 0.0 then Some(Clean(net / risk.value)) else None
  }

  /** What moving a position of the given size from one price to the other earns before fees:
      per unit of quantity, or as a relative move of an invested amount. */
  function Gross(entryPrice: real, exitPrice: real, size: real, terms: Terms): real
    requires terms.basis.Notional? ==> entryPrice != 0.0
  {
    var delta := Move(entryPrice, exitPrice, terms.side);
    if terms.basis.Quantity? then delta * size else delta / entryPrice * size
  }

  /** The price move in the direction that pays. */
  function Move(entryPrice: real, exitPrice: real, side: Side): real {
    (exitPrice - entryPrice) * Direction(side)
  }

  function Finish(gross: real, fees: real, terms: Terms, entryAt: int, exitAt: int): Calculation {
    var net := gross - fees;
    Settled(Clean(gross), Clean(net), Converted(net, terms.fx), RMultiple(net, terms.risk),
            HoldMinutes(entryAt, exitAt), net > 0.0)
  }

  // ---- calculate_executions ----

  function Only(fills: seq<Fill>, action: Action): seq<Fill> {
    if fills == [] then [] else (if fills[0].action == action then [fills[0]] else []) + Only(fills[1..], action)
  }

  function SumQuantity(fills: seq<Fill>): real {
    if fills == [] then 0.0 else fills[0].quantity + SumQuantity(fills[1..])
  }

  function SumNotional(fills: seq<Fill>): real {
    if fills == [] then 0.0 else fills[0].price * fills[0].quantity + SumNotional(fills[1..])
  }

  function SumFees(fills: seq<Fill>): real {
    if fills == [] then 0.0 else fills[0].fee + SumFees(fills[1..])
  }

  /** The length of the fills' reasons joined by a one-character separator. */
  function JoinedReason(fills: seq<Fill>): nat {
    if fills == [] then 0 else if |fills| == 1 then fills[0].reason else fills[0].reason + 1 + JoinedReason(fills[1..])
  }

  function Earliest(fills: seq<Fill>): (at: int)
    requires fills != []
  {
    if |fills| == 1 then fills[0].at else Min(fills[0].at, Earliest(fills[1..]))
  }

  function Latest(fills: seq<Fill>): (at: int)
    requires fills != []
  {
    if |fills| == 1 then fills[0].at else Max(fills[0].at, Latest(fills[1..]))
  }

  function Min(a: int, b: int): int { if a <= b then a else b }

  function Max(a: int, b: int): int { if a >= b then a else b }

  function CalculateExecutions(fills: seq<Fill>, terms: Terms): Try<Calculation> {
    var entries, exits := Only(fills, Entry), Only(fills, Exit);
    if entries == [] || exits == [] then Ok(Unsettled) else
    var entryQuantity, exitQuantity := SumQuantity(entries), SumQuantity(exits);
    if entryQuantity <= 0.0 || exitQuantity <= 0.0 then Raised else
    var averageEntry := SumNotional(entries) / entryQuantity;
    var averageExit := SumNotional(exits) / exitQuantity;
    var matched := if entryQuantity <= exitQuantity then entryQuantity else exitQuantity;
    if terms.basis.Notional? && averageEntry == 0.0 then Raised else
    Ok(Finish(Gross(averageEntry, averageExit, matched, terms), SumFees(fills), terms,
              Earliest(entries), Latest(exits)))
  }

  // ---- calculate_trade ----

  function CalculateTrade(h: Header): Try<Calculation> {
    if !h.status.Closed? || h.exitAt.None? || h.exitPrice.None? then Ok(Unsettled) else
    if h.entryPrice == 0.0 then Raised else
    Ok(Finish(Gross(h.entryPrice, h.exitPrice.value, h.size, h.terms), h.fees, h.terms, h.entryAt, h.exitAt.value))
  }

  // ---- the digest: a fill list as an element of a commutative monoid ----

  datatype Digest = Digest(entryAt: Option<int>, exitAt: Option<int>, entryQuantity: real, exitQuantity: real,
                           entryNotional: real, exitNotional: real, fees: real, entryText: nat, exitText: nat)

  const EMPTY := Digest(None, None, 0.0, 0.0, 0.0, 0.0, 0.0, 0, 0)

  function Earlier(a: Option<int>, b: Option<int>): Option<int> {
    if a.None? then b else if b.None? then a else Some(Min(a.value, b.value))
  }

  function Later(a: Option<int>, b: Option<int>): Option<int> {
    if a.None? then b else if b.None? then a else Some(Max(a.value, b.value))
  }

  function Plus(a: Digest, b: Digest): Digest {
    Digest(Earlier(a.entryAt, b.entryAt), Later(a.exitAt, b.exitAt),
           a.entryQuantity + b.entryQuantity, a.exitQuantity + b.exitQuantity,
           a.entryNotional + b.entryNotional, a.exitNotional + b.exitNotional, a.fees + b.fees,
           a.entryText + b.entryText, a.exitText + b.exitText)
  }

  function One(f: Fill): Digest {
    if f.action.Entry?
    then Digest(Some(f.at), None, f.quantity, 0.0, f.price * f.quantity, 0.0, f.fee, f.reason + 1, 0)
    else Digest(None, Some(f.at), 0.0, f.quantity, 0.0, f.price * f.quantity, f.fee, 0, f.reason + 1)
  }

  function DigestOf(fills: seq<Fill>): Digest {
    if fills == [] then EMPTY else Plus(One(fills[0]), DigestOf(fills[1..]))
  }

  /** The length of a joined text whose parts were counted with a separator each. */
  function Joined(text: nat): nat {
    if text == 0 then 0 else text - 1
  }

  /** The calculation as a function of the digest alone. */
  function Settle(d: Digest, terms: Terms): Try<Calculation> {
    if d.entryAt.None? || d.exitAt.None? then Ok(Unsettled) else
    if d.entryQuantity <= 0.0 || d.exitQuantity <= 0.0 then Raised else
    var entryPrice, exitPrice := d.entryNotional / d.entryQuantity, d.exitNotional / d.exitQuantity;
    var matched := if d.entryQuantity <= d.exitQuantity then d.entryQuantity else d.exitQuantity;
    if terms.basis.Notional? && entryPrice == 0.0 then Raised else
    Ok(Finish(Gross(entryPrice, exitPrice, matched, terms), d.fees, terms, d.entryAt.value, d.exitAt.value))
  }

  /** The part of the digest that one action's fills make up. */
  ghost predicate Describes(at: Option<int>, quantity: real, notional: real, text: nat, fills: seq<Fill>, last: bool) {
    && quantity == SumQuantity(fills) && notional == SumNotional(fills)
    && Joined(text) == JoinedReason(fills) && (text == 0 <==> fills == [])
    && at == (if fills == [] then None else Some(if last then Latest(fills) else Earliest(fills)))
  }

  lemma DescribesCons(f: Fill, at: Option<int>, quantity: real, notional: real, text: nat, fills: seq<Fill>, last: bool)
    requires Describes(at, quantity, notional, text, fills, last)
    ensures Describes(if last then Later(Some(f.at), at) else Earlier(Some(f.at), at),
                      f.quantity + quantity, f.price * f.quantity + notional, f.reason + 1 + text, [f] + fills, last)
  {
    assert ([f] + fills)[1..] == fills;
  }

  ghost predicate DescribesBoth(d: Digest, fills: seq<Fill>) {
    && Describes(d.entryAt, d.entryQuantity, d.entryNotional, d.entryText, Only(fills, Entry), false)
    && Describes(d.exitAt, d.exitQuantity, d.exitNotional, d.exitText, Only(fills, Exit), true)
  }

  lemma DescribesStep(f: Fill, fills: seq<Fill>, d: Digest)
    requires DescribesBoth(d, fills)
    ensures DescribesBoth(Plus(One(f), d), [f] + fills)
  {
    assert ([f] + fills)[1..] == fills;
    if f.action.Entry? {
      DescribesCons(f, d.entryAt, d.entryQuantity, d.entryNotional, d.entryText, Only(fills, Entry), false);
      assert Plus(One(f), d).exitQuantity == d.exitQuantity && Plus(One(f), d).exitNotional == d.exitNotional && Plus(One(f), d).exitText == d.exitText;
      assert Only([f] + fills, Entry) == [f] + Only(fills, Entry);
      assert Only([f] + fills, Exit) == [] + Only(fills, Exit) == Only(fills, Exit);
    } else {
      DescribesCons(f, d.exitAt, d.exitQuantity, d.exitNotional, d.exitText, Only(fills, Exit), true);
      assert Plus(One(f), d).entryQuantity == d.entryQuantity && Plus(One(f), d).entryNotional == d.entryNotional && Plus(One(f), d).entryText == d.entryText;
      assert Only([f] + fills, Exit) == [f] + Only(fills, Exit);
      assert Only([f] + fills, Entry) == [] + Only(fills, Entry) == Only(fills, Entry);
    }
  }

  /** Every field of the digest is what the comprehensions of the source compute. */
  lemma {:induction false} DigestFields(fills: seq<Fill>)
    ensures DescribesBoth(DigestOf(fills), fills) && DigestOf(fills).fees == SumFees(fills)
  {
    if fills != [] {
      hide DescribesBoth;
      DigestFields(fills[1..]);
      DescribesStep(fills[0], fills[1..], DigestOf(fills[1..]));
      assert fills == [fills[0]] + fills[1..];
    }
  }

  lemma CalculateExecutionsIsSettle(fills: seq<Fill>, terms: Terms)
    ensures CalculateExecutions(fills, terms) == Settle(DigestOf(fills), terms)
  {
    DigestFields(fills);
  }

  // ---- fill algebra ----

  lemma {:induction false} DigestSplit(a: seq<Fill>, b: seq<Fill>)
    ensures DigestOf(a + b) == Plus(DigestOf(a), DigestOf(b))
  {
    hide One, Plus;
    if a == [] {
      assert a + b == b;
      PlusEmpty(DigestOf(b));
    } else {
      assert a + b == [a[0]] + (a[1..] + b) && a == [a[0]] + a[1..];
      DigestSplit(a[1..], b);
      DigestCons(a[0], a[1..] + b);
      DigestCons(a[0], a[1..]);
      PlusAssociates(One(a[0]), DigestOf(a[1..]), DigestOf(b));
    }
  }

  lemma PlusEmpty(d: Digest)
    ensures Plus(EMPTY, d) == d
  {
  }

  lemma PlusAssociates(a: Digest, b: Digest, c: Digest)
    ensures Plus(Plus(a, b), c) == Plus(a, Plus(b, c))
  {
  }

  lemma DigestRemove(fills: seq<Fill>, i: nat)
    requires i < |fills|
    ensures DigestOf(fills) == Plus(One(fills[i]), DigestOf(fills[..i] + fills[i + 1..]))
  {
    hide One, Plus, DigestOf;
    var before, after := fills[..i], fills[i + 1..];
    assert fills == before + ([fills[i]] + after);
    DigestCons(fills[i], after);
    DigestSplit(before, [fills[i]] + after);
    DigestSplit(before, after);
    PlusSwaps(DigestOf(before), One(fills[i]), DigestOf(after));
  }

  lemma DigestCons(f: Fill, fills: seq<Fill>)
    ensures DigestOf([f] + fills) == Plus(One(f), DigestOf(fills))
  {
    assert ([f] + fills)[1..] == fills;
  }

  lemma PlusSwaps(a: Digest, b: Digest, c: Digest)
    ensures Plus(a, Plus(b, c)) == Plus(b, Plus(a, c))
  {
  }

  /** The digest does not depend on the order in which the rows are read. */
  lemma {:induction false} DigestPermutes(a: seq<Fill>, b: seq<Fill>)
    requires multiset(a) == multiset(b)
    ensures DigestOf(a) == DigestOf(b)
    decreases |a|
  {
    if a == [] {
      assert |multiset(b)| == 0;
    } else {
      assert a[0] in multiset(b);
      var i :| 0 <= i < |b| && b[i] == a[0];
      var rest := b[..i] + b[i + 1..];
      assert a == [a[0]] + a[1..];
      assert b == b[..i] + [b[i]] + b[i + 1..];
      assert multiset(rest) == multiset(b) - multiset{b[i]};
      DigestPermutes(a[1..], rest);
      DigestRemove(b, i);
    }
  }

  /** Profit and loss ignores the order of the fills. */
  lemma ResultPermutes(a: seq<Fill>, b: seq<Fill>, terms: Terms)
    requires multiset(a) == multiset(b)
    ensures CalculateExecutions(a, terms) == CalculateExecutions(b, terms)
  {
    DigestPermutes(a, b);
    CalculateExecutionsIsSettle(a, terms);
    CalculateExecutionsIsSettle(b, terms);
  }

  /** Splitting one fill in two changes no result, whatever the reasons say. */
  lemma ResultSplits(before: seq<Fill>, whole: Fill, part: Fill, rest: Fill, after: seq<Fill>, terms: Terms)
    requires part.action == rest.action == whole.action && part.at == rest.at == whole.at
    requires part.price == rest.price == whole.price
    requires part.quantity + rest.quantity == whole.quantity && part.fee + rest.fee == whole.fee
    ensures CalculateExecutions(before + [part, rest] + after, terms)
         == CalculateExecutions(before + [whole] + after, terms)
  {
    hide *;
    SplitDigest(before, [part, rest], after);
    SplitDigest(before, [whole], after);
    SplitSameAmounts(whole, part, rest);
    SameAmountsWithin(DigestOf(before), DigestOf([part, rest]), DigestOf([whole]), DigestOf(after));
    CalculateExecutionsIsSettle(before + [part, rest] + after, terms);
    CalculateExecutionsIsSettle(before + [whole] + after, terms);
    SameAmountsSettle(DigestOf(before + [part, rest] + after), DigestOf(before + [whole] + after), terms);
  }

  lemma SplitSameAmounts(whole: Fill, part: Fill, rest: Fill)
    requires part.action == rest.action == whole.action && part.at == rest.at == whole.at
    requires part.price == rest.price == whole.price
    requires part.quantity + rest.quantity == whole.quantity && part.fee + rest.fee == whole.fee
    ensures SameAmounts(DigestOf([part, rest]), DigestOf([whole]))
  {
    hide DigestOf, Plus, One, SameAmounts;
    assert [part, rest] == [part] + [rest];
    DigestSplit([part], [rest]);
    DigestOfOne(part);
    DigestOfOne(rest);
    DigestOfOne(whole);
    PartsSameAmounts(whole, part, rest, whole.price * part.quantity, whole.price * rest.quantity);
  }

  lemma PartsSameAmounts(whole: Fill, part: Fill, rest: Fill, partly: real, remaining: real)
    requires part.action == rest.action == whole.action && part.at == rest.at == whole.at
    requires part.price == rest.price == whole.price && partly == part.price * part.quantity && remaining == rest.price * rest.quantity
    requires part.quantity + rest.quantity == whole.quantity && part.fee + rest.fee == whole.fee
    ensures SameAmounts(Plus(One(part), One(rest)), One(whole))
  {
    Distribute(whole.price, part.quantity, rest.quantity);
    assert whole.price * whole.quantity == partly + remaining;
  }

  lemma SameAmountsWithin(before: Digest, a: Digest, b: Digest, after: Digest)
    requires SameAmounts(a, b)
    ensures SameAmounts(Plus(Plus(before, a), after), Plus(Plus(before, b), after))
  {
  }

  /** Two digests that differ in the reasons only. */
  predicate SameAmounts(a: Digest, b: Digest) {
    a.(entryText := b.entryText, exitText := b.exitText) == b
  }

  lemma SameAmountsSettle(a: Digest, b: Digest, terms: Terms)
    requires SameAmounts(a, b)
    ensures Settle(a, terms) == Settle(b, terms)
  {
  }

  lemma SplitDigest(before: seq<Fill>, middle: seq<Fill>, after: seq<Fill>)
    ensures DigestOf(before + middle + after) == Plus(Plus(DigestOf(before), DigestOf(middle)), DigestOf(after))
  {
    DigestSplit(before, middle);
    DigestSplit(before + middle, after);
  }

  lemma DigestOfOne(f: Fill)
    ensures DigestOf([f]) == One(f)
  {
    assert [f][1..] == [];
  }

  /** Trading the other side negates the gross result, rounding included. */
  lemma OppositeSideNegatesGross(fills: seq<Fill>, terms: Terms)
    ensures var mine, theirs := CalculateExecutions(fills, terms),
                                CalculateExecutions(fills, terms.(side := Opposite(terms.side)));
      && mine.Raised? == theirs.Raised?
      && (mine.Ok? ==> mine.value.Settled? == theirs.value.Settled?)
      && (mine.Ok? && mine.value.Settled? ==> theirs.value.gross == -mine.value.gross)
  {
    var entries, exits := Only(fills, Entry), Only(fills, Exit);
    if entries != [] && exits != [] {
      var entryQuantity, exitQuantity := SumQuantity(entries), SumQuantity(exits);
      if entryQuantity > 0.0 && exitQuantity > 0.0 {
        var averageEntry := SumNotional(entries) / entryQuantity;
        if terms.basis.Quantity? || averageEntry != 0.0 {
          var exitPrice := SumNotional(exits) / exitQuantity;
          var matched := if entryQuantity <= exitQuantity then entryQuantity else exitQuantity;
          OppositeGross(averageEntry, exitPrice, matched, terms);
          CleanOdd(Gross(averageEntry, exitPrice, matched, terms));
        }
      }
    }
  }

  lemma OppositeGross(entryPrice: real, exitPrice: real, size: real, terms: Terms)
    requires terms.basis.Notional? ==> entryPrice != 0.0
    ensures Gross(entryPrice, exitPrice, size, terms.(side := Opposite(terms.side))) == -Gross(entryPrice, exitPrice, size, terms)
  {
    var delta := Move(entryPrice, exitPrice, terms.side);
    assert Move(entryPrice, exitPrice, Opposite(terms.side)) == -delta;
    hide Move;
    if terms.basis.Quantity? {
      NegateProduct(delta, size);
    } else {
      NegateRatio(delta, entryPrice, size);
    }
  }

  /** On a closed position counted by quantity the gross result is the signed difference of
      what the exits and the entries were worth, and each fee is taken off exactly once. */
  lemma ClosedGrossIsNotionalDifference(fills: seq<Fill>, terms: Terms)
    requires terms.basis.Quantity? && Only(fills, Entry) != [] && Only(fills, Exit) != []
    requires SumQuantity(Only(fills, Entry)) == SumQuantity(Only(fills, Exit)) > 0.0
    ensures CalculateExecutions(fills, terms)
         == Ok(Finish((SumNotional(Only(fills, Exit)) - SumNotional(Only(fills, Entry))) * Direction(terms.side),
                      SumFees(fills), terms, Earliest(Only(fills, Entry)), Latest(Only(fills, Exit))))
  {
    hide Gross, Move, Finish;
    GrossOfNotionals(SumNotional(Only(fills, Entry)), SumNotional(Only(fills, Exit)),
                     SumQuantity(Only(fills, Entry)), terms);
  }

  lemma GrossOfNotionals(entered: real, exited: real, size: real, terms: Terms)
    requires terms.basis.Quantity? && size > 0.0
    ensures Gross(entered / size, exited / size, size, terms) == (exited - entered) * Direction(terms.side)
  {
    WeightedDifference(exited, entered, size, Direction(terms.side));
  }

  /** On a closed position counted by invested amount the gross result is what the amount became at
      the average exit price, less the amount, with the sign of the side. */
  lemma ClosedGrossIsRelativeGain(fills: seq<Fill>, terms: Terms, gross: real)
    requires terms.basis.Notional? && Only(fills, Entry) != [] && Only(fills, Exit) != []
    requires SumQuantity(Only(fills, Entry)) == SumQuantity(Only(fills, Exit)) > 0.0
    requires SumNotional(Only(fills, Entry)) > 0.0
    requires gross == SignedGain(SumNotional(Only(fills, Entry)), SumNotional(Only(fills, Exit)), SumQuantity(Only(fills, Entry)), terms)
    ensures CalculateExecutions(fills, terms)
         == Ok(Finish(gross, SumFees(fills), terms, Earliest(Only(fills, Entry)), Latest(Only(fills, Exit))))
  {
    hide Gross, Move, Finish, SignedGain;
    var size, entered, exited := SumQuantity(Only(fills, Entry)), SumNotional(Only(fills, Entry)), SumNotional(Only(fills, Exit));
    PositiveRatio(entered, size);
    RelativeGain(entered, exited, size, terms);
  }

  /** What an invested amount became at the ratio of two notionals, less the amount, by side. */
  function SignedGain(entered: real, exited: real, size: real, terms: Terms): real
    requires entered > 0.0
  {
    (exited / entered * size - size) * Direction(terms.side)
  }

  lemma RelativeGain(entered: real, exited: real, size: real, terms: Terms)
    requires terms.basis.Notional? && entered > 0.0 && size > 0.0 && entered / size > 0.0
    ensures Gross(entered / size, exited / size, size, terms) == SignedGain(entered, exited, size, terms)
  {
    hide Move, Gross;
    var e, x := entered / size, exited / size;
    RatioOfRatios(entered, exited, size);
    GainOver(e, x, size, exited / entered);
    MoveIs(e, x, terms.side);
    GrossOnNotional(e, x, size, terms, (x - e) / e * size);
  }

  lemma GrossOnNotional(e: real, x: real, size: real, terms: Terms, gain: real)
    requires terms.basis.Notional? && e > 0.0 && gain == (x - e) / e * size
    ensures Gross(e, x, size, terms) == gain * Direction(terms.side)
  {
    MoveIs(e, x, terms.side);
    NegateRatio(x - e, e, size);
  }

  lemma MoveIs(e: real, x: real, side: Side)
    ensures Move(e, x, side) == if side.Long? then x - e else -(x - e)
  {
  }

  /** Averages over one quantity are to each other as the notionals. */
  lemma RatioOfRatios(entered: real, exited: real, size: real)
    requires entered > 0.0 && size > 0.0 && entered / size > 0.0
    ensures exited / size == exited / entered * (entered / size)
  {
    var e, x, r := entered / size, exited / size, exited / entered;
    assert e * size == entered && x * size == exited && r * entered == exited;
    Associates(r, e, size);
    CancelFactor(r * e, x, size);
  }

  lemma GainOver(e: real, x: real, size: real, ratio: real)
    requires e > 0.0 && x == ratio * e
    ensures (x - e) / e * size == ratio * size - size
  {
    DifferenceTimes(ratio, 1.0, e);
    UniqueQuotient(x - e, e, ratio - 1.0);
    DifferenceTimes(ratio, 1.0, size);
  }

  lemma WeightedDifference(x: real, e: real, q: real, s: real)
    requires q > 0.0
    ensures (x / q - e / q) * s * q == (x - e) * s
  {
    var a, b := x / q, e / q;
    assert a * q == x && b * q == e;
    Distribute(q, a, -b);
    assert (a - b) * q == x - e;
    assert (a - b) * s * q == (a - b) * q * s;
  }

  // ---- the header as a summary ----

  /** The header a digest determines. */
  function Summary(d: Digest, terms: Terms): Header
    requires d.entryAt.Some? && d.entryQuantity > 0.0
  {
    Header(if d.exitQuantity == 0.0 then Open else if d.exitQuantity == d.entryQuantity then Closed else PartiallyClosed,
           d.entryAt.value, d.exitAt, d.entryNotional / d.entryQuantity,
           if d.exitQuantity == 0.0 then None else Some(d.exitNotional / d.exitQuantity),
           d.entryQuantity, d.fees, Joined(d.entryText), Joined(d.exitText), terms)
  }

  /** A digest some list of fills with positive prices and quantities can have. */
  predicate Tradable(d: Digest) {
    && d.entryAt.Some? && d.entryQuantity > 0.0 && d.entryNotional > 0.0
    && 0.0 <= d.exitQuantity <= d.entryQuantity
    && (d.exitAt.None? <==> d.exitQuantity == 0.0)
  }

  /** The calculator that sees only the header agrees with the one that sees the fills
      exactly when the position has no exit or is fully closed. */
  lemma HeaderIsFaithful(d: Digest, terms: Terms)
    requires Tradable(d)
    ensures CalculateTrade(Summary(d, terms)) == Settle(d, terms)
       <==> d.exitQuantity == 0.0 || d.exitQuantity == d.entryQuantity
  {
    assert d.entryNotional / d.entryQuantity > 0.0 by { PositiveRatio(d.entryNotional, d.entryQuantity); }
  }

  // ---- where a stored result can come from ----

  /** The results that rounding some exact net result at some exchange rate produces. */
  ghost predicate FromNet(c: Calculation, fx: real) {
    c.Settled? ==> exists net: real :: c.net == Clean(net) && c.cny == Converted(net, fx) && (c.winning <==> net > 0.0)
  }

  lemma FinishFromNet(gross: real, fees: real, terms: Terms, entryAt: int, exitAt: int)
    ensures FromNet(Finish(gross, fees, terms, entryAt, exitAt), terms.fx)
  {
    var net := gross - fees;
    var c := Finish(gross, fees, terms, entryAt, exitAt);
    assert c.net == Clean(net) && c.cny == Converted(net, terms.fx) && (c.winning <==> net > 0.0);
  }

  lemma TradeRoundsOneNet(h: Header)
    ensures CalculateTrade(h).Ok? ==> FromNet(CalculateTrade(h).value, h.terms.fx)
  {
    if h.status.Closed? && h.exitAt.Some? && h.exitPrice.Some? && h.entryPrice != 0.0 {
      FinishFromNet(Gross(h.entryPrice, h.exitPrice.value, h.size, h.terms), h.fees, h.terms, h.entryAt, h.exitAt.value);
    }
  }

  lemma SettleRoundsOneNet(d: Digest, terms: Terms)
    ensures Settle(d, terms).Ok? ==> FromNet(Settle(d, terms).value, terms.fx)
  {
    if d.entryAt.Some? && d.exitAt.Some? && d.entryQuantity > 0.0 && d.exitQuantity > 0.0 {
      var entryPrice := d.entryNotional / d.entryQuantity;
      if terms.basis.Quantity? || entryPrice != 0.0 {
        var matched := if d.entryQuantity <= d.exitQuantity then d.entryQuantity else d.exitQuantity;
        FinishFromNet(Gross(entryPrice, d.exitNotional / d.exitQuantity, matched, terms), d.fees, terms,
                      d.entryAt.value, d.exitAt.value);
      }
    }
  }
}

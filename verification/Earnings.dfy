/** What a position earns, written out over its fills: the totals of its entries and exits, and nothing else. */
module Earnings {
  import opened Wrappers
  import opened Decimals
  import opened Calculations

  // ---- the words ----

  /** An action's fills are all of that action, each as often as it occurs. */
  lemma {:induction false} OnlyKeeps(fills: seq<Fill>, action: Action, f: Fill)
    ensures multiset(Only(fills, action))[f] == if f.action == action then multiset(fills)[f] else 0
  {
    if fills != [] {
      OnlyKeeps(fills[1..], action, f);
      assert fills == [fills[0]] + fills[1..];
      var head := if fills[0].action == action then [fills[0]] else [];
      assert Only(fills, action) == head + Only(fills[1..], action);
      assert multiset(head + Only(fills[1..], action)) == multiset(head) + multiset(Only(fills[1..], action));
    }
  }

  lemma OnlyMembers(fills: seq<Fill>, action: Action)
    ensures forall f :: f in Only(fills, action) <==> f in fills && f.action == action
  {
    forall f ensures f in Only(fills, action) <==> f in fills && f.action == action {
      OnlyKeeps(fills, action, f);
      assert f in Only(fills, action) <==> f in multiset(Only(fills, action));
      assert f in fills <==> f in multiset(fills);
    }
  }

  /** The totals of one fill, and of two lists together. */
  lemma TotalsOfOne(f: Fill)
    ensures SumQuantity([]) == SumNotional([]) == SumFees([]) == 0.0
    ensures SumQuantity([f]) == f.quantity && SumNotional([f]) == f.price * f.quantity && SumFees([f]) == f.fee
  {
    assert [f][1..] == [];
  }

  lemma {:induction false} TotalsAdd(a: seq<Fill>, b: seq<Fill>)
    ensures SumQuantity(a + b) == SumQuantity(a) + SumQuantity(b)
    ensures SumNotional(a + b) == SumNotional(a) + SumNotional(b)
    ensures SumFees(a + b) == SumFees(a) + SumFees(b)
  {
    if a == [] {
      assert a + b == b;
    } else {
      assert (a + b)[1..] == a[1..] + b && (a + b)[0] == a[0];
      TotalsAdd(a[1..], b);
    }
  }

  /** The time of the first and of the last of some fills. */
  predicate FirstAt(fills: seq<Fill>, at: int) {
    (exists f <- fills :: f.at == at) && forall f <- fills :: at <= f.at
  }

  predicate LastAt(fills: seq<Fill>, at: int) {
    (exists f <- fills :: f.at == at) && forall f <- fills :: f.at <= at
  }

  lemma {:induction false} EarliestIsFirst(fills: seq<Fill>)
    requires fills != []
    ensures FirstAt(fills, Earliest(fills))
  {
    if |fills| > 1 {
      EarliestIsFirst(fills[1..]);
      assert fills == [fills[0]] + fills[1..];
      var f :| f in fills[1..] && f.at == Earliest(fills[1..]);
      assert f in fills && fills[0] in fills;
    } else {
      assert fills[0] in fills;
    }
  }

  lemma {:induction false} LatestIsLast(fills: seq<Fill>)
    requires fills != []
    ensures LastAt(fills, Latest(fills))
  {
    if |fills| > 1 {
      LatestIsLast(fills[1..]);
      assert fills == [fills[0]] + fills[1..];
      var f :| f in fills[1..] && f.at == Latest(fills[1..]);
      assert f in fills && fills[0] in fills;
    } else {
      assert fills[0] in fills;
    }
  }

  // ---- what is reported of an exact gross result ----

  /** Gross rounded; net less all fees; the net at the rate; the net per risk, when there is a risk; and whether it won. */
  predicate Reports(c: Calculation, gross: real, fees: real, fx: real, risk: Option<real>) {
    && c.Settled?
    && c.gross == Clean(gross) && c.net == Clean(gross - fees) && c.cny == Clean((gross - fees) * fx)
    && (c.winning <==> gross > fees)
    && (c.r.Some? <==> risk.Some? && risk.value > 0.0)
    && (c.r.Some? ==> c.r.value == Clean((gross - fees) / risk.value))
  }

  /** The whole minutes nearest to the time between two moments, half up, and none if they are out of order. */
  predicate MinutesBetween(minutes: nat, from: int, to: int) {
    if to <= from then minutes == 0 else -30000000 < 60000000 * minutes - (to - from) <= 30000000
  }

  lemma FinishReports(gross: real, fees: real, terms: Terms, entryAt: int, exitAt: int)
    ensures var c := Finish(gross, fees, terms, entryAt, exitAt);
      Reports(c, gross, fees, terms.fx, terms.risk) && MinutesBetween(c.minutes, entryAt, exitAt)
  {
  }

  // ---- calculate_executions ----

  /** An amount in the direction that pays. */
  function ForSide(side: Side, amount: real): real {
    match side
    case Long => amount
    case Short => -amount
  }

  /** What is made on the part of a position that was sold: by quantity, what was received less what that part cost at
      the average entry price; by invested amount, what the part became at the ratio of the prices, less the part.
      If more was sold than entered, only as much counts as was entered, at the average exit price. */
  function MadeOn(basis: Basis, entered: real, spent: real, exited: real, received: real): real
    requires entered > 0.0 && exited > 0.0 && (basis.Notional? ==> spent != 0.0)
  {
    if exited <= entered then
      match basis
      case Quantity => received - spent / entered * exited
      case Notional => RatioIsNotZero(spent, entered); received / (spent / entered) - exited
    else
      match basis
      case Quantity => received / exited * entered - spent
      case Notional => RatioIsNotZero(spent, entered); received / exited * entered / (spent / entered) - entered
  }

  lemma RatioIsNotZero(x: real, q: real)
    requires x != 0.0 && q > 0.0
    ensures x / q != 0.0
  {
    assert x / q * q == x;
  }

  /** The fills have a result unless one action is missing or its total quantity is not positive, or, by invested
      amount, nothing was spent; and the result is what they made. */
  lemma WhatFillsEarn(fills: seq<Fill>, terms: Terms)
    ensures var entries, exits := Only(fills, Entry), Only(fills, Exit);
      var entered, spent, exited, received := SumQuantity(entries), SumNotional(entries), SumQuantity(exits), SumNotional(exits);
      var r := CalculateExecutions(fills, terms);
      && (entries == [] || exits == [] ==> r == Ok(Unsettled))
      && (entries != [] && exits != [] ==>
            if entered <= 0.0 || exited <= 0.0 || (terms.basis == Notional && spent == 0.0) then r == Raised
            else
              && r.Ok?
              && Reports(r.value, ForSide(terms.side, MadeOn(terms.basis, entered, spent, exited, received)),
                         SumFees(fills), terms.fx, terms.risk)
              && exists first, last :: FirstAt(entries, first) && LastAt(exits, last) && MinutesBetween(r.value.minutes, first, last))
  {
    var entries, exits := Only(fills, Entry), Only(fills, Exit);
    var entered, spent, exited, received := SumQuantity(entries), SumNotional(entries), SumQuantity(exits), SumNotional(exits);
    if entries != [] && exits != [] && entered > 0.0 && exited > 0.0 {
      if terms.basis.Notional? && spent == 0.0 {
        assert spent / entered == 0.0;
      } else {
        if terms.basis.Notional? {
          RatioIsNotZero(spent, entered);
        }
        EarliestIsFirst(entries);
        LatestIsLast(exits);
        hide Gross, Finish, MadeOn, ForSide, Reports, MinutesBetween, FirstAt, LastAt, Only, SumQuantity, SumNotional, SumFees, Earliest, Latest;
        GrossIsMade(entered, spent, exited, received, terms);
        FinishReports(ForSide(terms.side, MadeOn(terms.basis, entered, spent, exited, received)), SumFees(fills), terms,
                      Earliest(entries), Latest(exits));
      }
    }
  }

  lemma GrossIsMade(entered: real, spent: real, exited: real, received: real, terms: Terms)
    requires entered > 0.0 && exited > 0.0 && (terms.basis.Notional? ==> spent != 0.0 && spent / entered != 0.0)
    ensures Gross(spent / entered, received / exited, if entered <= exited then entered else exited, terms)
         == ForSide(terms.side, MadeOn(terms.basis, entered, spent, exited, received))
  {
    hide Gross, MadeOn;
    var e, x := spent / entered, received / exited;
    var size := if entered <= exited then entered else exited;
    if terms.basis.Quantity? {
      MadeByQuantity(entered, spent, exited, received, e, x, size);
      GrossByQuantity(e, x, size, terms);
    } else {
      MadeByAmount(entered, spent, exited, received, e, x, size);
      GrossByAmount(e, x, size, terms);
    }
  }

  lemma GrossByQuantity(e: real, x: real, size: real, terms: Terms)
    requires terms.basis.Quantity?
    ensures Gross(e, x, size, terms) == ForSide(terms.side, x * size - e * size)
  {
    DifferenceTimes(x, e, size);
    NegateProduct(x - e, size);
    MoveIs(e, x, terms.side);
    hide Move;
  }

  lemma GrossByAmount(e: real, x: real, size: real, terms: Terms)
    requires terms.basis.Notional? && e != 0.0
    ensures Gross(e, x, size, terms) == ForSide(terms.side, x / e * size - size)
  {
    RatioLessOne(x, e);
    DifferenceTimes(x / e, 1.0, size);
    NegateRatio(x - e, e, size);
    MoveIs(e, x, terms.side);
    hide Move;
  }

  lemma QuotientIs(n: real, e: real, r: real)
    requires e != 0.0 && n == r * e
    ensures n / e == r
  {
    var q := n / e;
    assert q * e == n;
    DifferenceTimes(q, r, e);
    NoZeroProduct(q - r, e);
  }

  lemma NoZeroProduct(x: real, e: real)
    requires x * e == 0.0 && e != 0.0
    ensures x == 0.0
  {
  }

  lemma RatioLessOne(x: real, e: real)
    requires e != 0.0
    ensures (x - e) / e == x / e - 1.0
  {
    var y := x / e;
    assert y * e == x;
    DifferenceTimes(y, 1.0, e);
    QuotientIs(x - e, e, y - 1.0);
  }

  lemma MadeByQuantity(entered: real, spent: real, exited: real, received: real, e: real, x: real, size: real)
    requires entered > 0.0 && exited > 0.0 && e == spent / entered && x == received / exited
    requires size == if entered <= exited then entered else exited
    ensures MadeOn(Quantity, entered, spent, exited, received) == x * size - e * size
  {
    assert x * exited == received && e * entered == spent;
  }

  lemma MadeByAmount(entered: real, spent: real, exited: real, received: real, e: real, x: real, size: real)
    requires entered > 0.0 && exited > 0.0 && spent != 0.0 && e == spent / entered && x == received / exited && e != 0.0
    requires size == if entered <= exited then entered else exited
    ensures MadeOn(Notional, entered, spent, exited, received) == x / e * size - size
  {
    assert x * exited == received;
    ProductOverQuotient(x, e, size);
  }

  lemma ProductOverQuotient(x: real, e: real, size: real)
    requires e != 0.0
    ensures x * size / e == x / e * size
  {
  }

  /** A partly sold position has the gross result of the part alone: one entry of the quantity sold at the average
      entry price, and the same exits. */
  lemma PartEarnsLikeItself(fills: seq<Fill>, part: Fill, terms: Terms)
    requires var entries, exits := Only(fills, Entry), Only(fills, Exit);
      && 0.0 < SumQuantity(exits) <= SumQuantity(entries) && SumNotional(entries) != 0.0
      && part.action == Entry && part.quantity == SumQuantity(exits)
      && part.price == SumNotional(entries) / SumQuantity(entries)
    ensures var whole, alone := CalculateExecutions(fills, terms), CalculateExecutions([part] + Only(fills, Exit), terms);
      whole.Ok? && whole.value.Settled? && alone.Ok? && alone.value.Settled? && alone.value.gross == whole.value.gross
  {
    hide *;
    PartTotals(fills, part);
    PartMakesSame(fills, part, terms.basis);
    SameGross(fills, part, terms);
  }

  lemma PartMakesSame(fills: seq<Fill>, part: Fill, basis: Basis)
    requires var entries, exits := Only(fills, Entry), Only(fills, Exit);
      && 0.0 < SumQuantity(exits) <= SumQuantity(entries) && SumNotional(entries) != 0.0
      && part.price == SumNotional(entries) / SumQuantity(entries)
      && SumNotional([part]) == part.price * SumQuantity(exits)
    ensures var entries, exits := Only(fills, Entry), Only(fills, Exit);
      && SumNotional([part]) != 0.0
      && MadeOn(basis, SumQuantity(exits), SumNotional([part]), SumQuantity(exits), SumNotional(exits))
         == MadeOn(basis, SumQuantity(entries), SumNotional(entries), SumQuantity(exits), SumNotional(exits))
  {
    hide *;
    var entries, exits := Only(fills, Entry), Only(fills, Exit);
    PartMakes(basis, SumQuantity(entries), SumNotional(entries), SumQuantity(exits), SumNotional(exits), part.price,
              SumNotional([part]));
  }

  lemma SameGross(fills: seq<Fill>, part: Fill, terms: Terms)
    requires var entries, exits := Only(fills, Entry), Only(fills, Exit);
      && entries != [] && exits != [] && Only([part] + exits, Entry) == [part] && Only([part] + exits, Exit) == exits
      && SumQuantity(entries) > 0.0 && SumQuantity(exits) > 0.0 && SumNotional(entries) != 0.0
      && SumQuantity([part]) == SumQuantity(exits) && SumNotional([part]) != 0.0
      && MadeOn(terms.basis, SumQuantity(exits), SumNotional([part]), SumQuantity(exits), SumNotional(exits))
         == MadeOn(terms.basis, SumQuantity(entries), SumNotional(entries), SumQuantity(exits), SumNotional(exits))
    ensures var whole, alone := CalculateExecutions(fills, terms), CalculateExecutions([part] + Only(fills, Exit), terms);
      whole.Ok? && whole.value.Settled? && alone.Ok? && alone.value.Settled? && alone.value.gross == whole.value.gross
  {
    hide *;
    Earns(fills, terms);
    Earns([part] + Only(fills, Exit), terms);
  }

  lemma PartTotals(fills: seq<Fill>, part: Fill)
    requires part.action == Entry && SumQuantity(Only(fills, Exit)) > 0.0 && SumQuantity(Only(fills, Entry)) > 0.0
    ensures Only(fills, Entry) != [] && Only(fills, Exit) != []
    ensures Only([part] + Only(fills, Exit), Entry) == [part] && Only([part] + Only(fills, Exit), Exit) == Only(fills, Exit)
    ensures SumQuantity([part]) == part.quantity && SumNotional([part]) == part.price * part.quantity
  {
    OnlyOfPart(part, fills);
    TotalsOfOne(part);
  }

  lemma PartMakes(basis: Basis, entered: real, spent: real, exited: real, received: real, price: real,
                  cost: real)
    requires 0.0 < exited <= entered && spent != 0.0 && price == spent / entered && cost == price * exited
    ensures cost != 0.0
    ensures MadeOn(basis, exited, cost, exited, received) == MadeOn(basis, entered, spent, exited, received)
  {
    RatioIsNotZero(spent, entered);
    PartIsNotFree(price, exited);
    QuotientIs(cost, exited, price);
  }

  lemma Earns(fills: seq<Fill>, terms: Terms)
    requires var entries, exits := Only(fills, Entry), Only(fills, Exit);
      entries != [] && exits != [] && SumQuantity(entries) > 0.0 && SumQuantity(exits) > 0.0 && SumNotional(entries) != 0.0
    ensures var entries, exits := Only(fills, Entry), Only(fills, Exit);
      var r := CalculateExecutions(fills, terms);
      && r.Ok? && r.value.Settled?
      && r.value.gross == Clean(ForSide(terms.side, MadeOn(terms.basis, SumQuantity(entries), SumNotional(entries),
                                                           SumQuantity(exits), SumNotional(exits))))
  {
    WhatFillsEarn(fills, terms);
    hide CalculateExecutions, MadeOn, Only, SumQuantity, SumNotional, SumFees, FirstAt, LastAt, MinutesBetween, ForSide, Clean;
  }

  lemma PartIsNotFree(price: real, quantity: real)
    requires price != 0.0 && quantity > 0.0
    ensures price * quantity != 0.0
  {
  }

  lemma {:induction false} OnlyOfOnly(fills: seq<Fill>)
    ensures Only(Only(fills, Exit), Exit) == Only(fills, Exit) && Only(Only(fills, Exit), Entry) == []
  {
    if fills != [] {
      OnlyOfOnly(fills[1..]);
      if fills[0].action == Exit {
        assert Only(fills, Exit)[1..] == Only(fills[1..], Exit);
      } else {
        assert Only(fills, Exit) == [] + Only(fills[1..], Exit) == Only(fills[1..], Exit);
      }
    }
  }

  lemma OnlyOfPart(part: Fill, fills: seq<Fill>)
    requires part.action == Entry
    ensures Only([part] + Only(fills, Exit), Entry) == [part] && Only([part] + Only(fills, Exit), Exit) == Only(fills, Exit)
  {
    OnlyOfOnly(fills);
    assert ([part] + Only(fills, Exit))[1..] == Only(fills, Exit);
  }

  // ---- calculate_trade ----

  /** What a position of one size makes between two prices. */
  function MadeBetween(basis: Basis, e: real, x: real, size: real): real
    requires e != 0.0
  {
    match basis
    case Quantity => x * size - e * size
    case Notional => x / e * size - size
  }

  /** A header has a result only when it is closed with both exit columns; then it is the whole size that was
      entered and left at the two prices. */
  lemma WhatHeaderEarns(h: Header)
    ensures h.status != Closed || h.exitAt == None || h.exitPrice == None ==> CalculateTrade(h) == Ok(Unsettled)
    ensures h.status == Closed && h.exitAt.Some? && h.exitPrice.Some? && h.entryPrice == 0.0 ==> CalculateTrade(h) == Raised
    ensures h.status == Closed && h.exitAt.Some? && h.exitPrice.Some? && h.entryPrice != 0.0 ==>
      var r := CalculateTrade(h);
      var made := ForSide(h.terms.side, MadeBetween(h.terms.basis, h.entryPrice, h.exitPrice.value, h.size));
      && r.Ok? && Reports(r.value, made, h.fees, h.terms.fx, h.terms.risk)
      && MinutesBetween(r.value.minutes, h.entryAt, h.exitAt.value)
  {
    hide Gross, Finish, Reports, MinutesBetween, ForSide, MadeBetween;
    if h.status == Closed && h.exitAt.Some? && h.exitPrice.Some? && h.entryPrice != 0.0 {
      GrossOfHeader(h.entryPrice, h.exitPrice.value, h.size, h.terms);
      FinishReports(Gross(h.entryPrice, h.exitPrice.value, h.size, h.terms), h.fees, h.terms, h.entryAt, h.exitAt.value);
    }
  }

  lemma GrossOfHeader(e: real, x: real, size: real, terms: Terms)
    requires e != 0.0
    ensures Gross(e, x, size, terms) == ForSide(terms.side, MadeBetween(terms.basis, e, x, size))
  {
    hide Gross;
    if terms.basis.Quantity? {
      GrossByQuantity(e, x, size, terms);
    } else {
      GrossByAmount(e, x, size, terms);
    }
  }
}

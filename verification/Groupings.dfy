/** The tables of the dashboard: closed trades grouped by market, strategy and day. */
module Groupings {
  import opened Decimals
  import opened Calculations
  import opened StoredHeaders
  import opened Dashboard

  datatype Group = Group(name: string, count: nat, shown: real, winRate: real)

  function Labels<K(==)>(items: seq<Item>, key: Item -> K): seq<K> {
    if items == [] then [] else
    var before, last := Labels(items[..|items| - 1], key), key(items[|items| - 1]);
    if last in before then before else before + [last]
  }

  function Members<K(==)>(items: seq<Item>, key: Item -> K, name: K): seq<Item> {
    if items == [] then [] else
    Members(items[..|items| - 1], key, name) + if key(items[|items| - 1]) == name then [items[|items| - 1]] else []
  }

  /** The weights of the groups of the given labels, added up. */
  function GroupSum<K(==)>(labels: seq<K>, items: seq<Item>, key: Item -> K, weight: Item -> real): real {
    if labels == [] then 0.0 else
    GroupSum(labels[..|labels| - 1], items, key, weight) + Weigh(Members(items, key, labels[|labels| - 1]), weight)
  }

  predicate AllDifferent<K(==)>(labels: seq<K>) {
    forall i, j | 0 <= i < j < |labels| :: labels[i] != labels[j]
  }

  lemma {:induction false} LabelsAreDistinct<K>(items: seq<Item>, key: Item -> K)
    ensures AllDifferent(Labels(items, key))
    ensures forall item <- items :: key(item) in Labels(items, key)
  {
    if items != [] {
      LabelsAreDistinct(items[..|items| - 1], key);
    }
  }

  lemma MembersAppends<K>(items: seq<Item>, item: Item, key: Item -> K, name: K, weight: Item -> real)
    ensures Weigh(Members(items + [item], key, name), weight)
         == Weigh(Members(items, key, name), weight) + if key(item) == name then weight(item) else 0.0
  {
    assert (items + [item])[..|items|] == items;
    hide Weigh;
    if key(item) == name {
      WeighAppends(Members(items, key, name), item, weight);
    } else {
      assert Members(items, key, name) + [] == Members(items, key, name);
    }
  }

  /** One more item adds its weight to exactly one of the groups, if its label is listed. */
  lemma {:induction false} GroupSumAppends<K>(labels: seq<K>, items: seq<Item>, item: Item, key: Item -> K, weight: Item -> real)
    requires AllDifferent(labels)
    ensures GroupSum(labels, items + [item], key, weight)
         == GroupSum(labels, items, key, weight) + if key(item) in labels then weight(item) else 0.0
  {
    if labels != [] {
      hide Weigh, Members;
      var n := |labels| - 1;
      GroupSumAppends(labels[..n], items, item, key, weight);
      MembersAppends(items, item, key, labels[n], weight);
      assert labels == labels[..n] + [labels[n]];
    }
  }

  lemma {:induction false} MembersOfUnknown<K>(items: seq<Item>, key: Item -> K, name: K)
    requires name !in Labels(items, key)
    ensures Members(items, key, name) == []
  {
    if items != [] {
      MembersOfUnknown(items[..|items| - 1], key, name);
    }
  }

  lemma NewLabel<K>(items: seq<Item>, item: Item, key: Item -> K, weight: Item -> real)
    requires key(item) !in Labels(items, key)
    ensures GroupSum(Labels(items, key) + [key(item)], items + [item], key, weight)
         == GroupSum(Labels(items, key), items + [item], key, weight) + weight(item)
  {
    var labels, all := Labels(items, key), items + [item];
    assert (labels + [key(item)])[..|labels|] == labels;
    MembersOfUnknown(items, key, key(item));
    assert all[..|items|] == items;
    assert Members(all, key, key(item)) == [] + [item] == [item];
    WeighAppends([], item, weight);
    assert [] + [item] == [item];
  }

  lemma LabelsGrow<K>(items: seq<Item>, item: Item, key: Item -> K)
    ensures Labels(items + [item], key) ==
      if key(item) in Labels(items, key) then Labels(items, key) else Labels(items, key) + [key(item)]
  {
    assert (items + [item])[..|items|] == items;
  }

  /** The groups partition the items: whatever is summed over the groups is summed over the items once. */
  lemma {:induction false} GroupsPartition<K>(items: seq<Item>, key: Item -> K, weight: Item -> real)
    ensures GroupSum(Labels(items, key), items, key, weight) == Weigh(items, weight)
  {
    hide GroupSum, Labels, Weigh, Members;
    if items == [] {
      NoGroups(key, weight);
    } else {
      var n := |items| - 1;
      var before, last := items[..n], items[n];
      GroupsPartition(before, key, weight);
      assert items == before + [last];
      PartitionStep(before, last, key, weight);
    }
  }

  lemma NoGroups<K>(key: Item -> K, weight: Item -> real)
    ensures GroupSum(Labels([], key), [], key, weight) == Weigh([], weight)
  {
  }

  lemma PartitionStep<K>(before: seq<Item>, last: Item, key: Item -> K, weight: Item -> real)
    requires GroupSum(Labels(before, key), before, key, weight) == Weigh(before, weight)
    ensures GroupSum(Labels(before + [last], key), before + [last], key, weight) == Weigh(before + [last], weight)
  {
    hide GroupSum, Labels, Weigh, Members;
    LabelsAreDistinct(before, key);
    LabelsGrow(before, last, key);
    WeighAppends(before, last, weight);
    GroupSumAppends(Labels(before, key), before, last, key, weight);
    if key(last) !in Labels(before, key) {
      NewLabel(before, last, key, weight);
    }
  }

  /** Rounding each group to cents moves the total by at most half a cent per group. */
  function ShownSum<K(==)>(labels: seq<K>, items: seq<Item>, key: Item -> K): real {
    if labels == [] then 0.0 else
    ShownSum(labels[..|labels| - 1], items, key) + Cents(Weigh(Members(items, key, labels[|labels| - 1]), Cny))
  }

  lemma {:induction false} ShownSumIsNear<K>(labels: seq<K>, items: seq<Item>, key: Item -> K)
    ensures var exact, slack := GroupSum(labels, items, key, Cny), 0.005 * |labels| as real;
      -slack <= ShownSum(labels, items, key) - exact <= slack
  {
    if labels != [] {
      ShownSumIsNear(labels[..|labels| - 1], items, key);
    }
  }

  /** Trades without a settled result weigh nothing. */
  lemma {:induction false} SettledCarryEverything(items: seq<Item>)
    ensures Weigh(Select(items, IsClosed), Cny) == AggregateMetrics(items).net
    ensures |Select(items, IsClosed)| == AggregateMetrics(items).closed
       <==> forall item <- items :: IsClosed(item) ==> IsSettled(item)
    ensures |Select(items, IsClosed)| >= AggregateMetrics(items).closed
  {
    if items != [] {
      var n := |items| - 1;
      var before, last := items[..n], items[n];
      SettledCarryEverything(before);
      assert items == before + [last];
      WeighSelect(before, last, IsClosed, Cny);
      WeighSelect(before, last, IsSettled, Cny);
    }
  }

  /** The three tables of the dashboard against its metrics, for any way of labelling the closed trades:
      counts add up to the closed trades (which the metrics count too exactly when each has a result),
      unrounded amounts to the metrics' net, and shown amounts to the shown net within half a cent each. */
  lemma TablesReconcile<K>(items: seq<Item>, key: Item -> K)
    ensures var closed, m := Select(items, IsClosed), AggregateMetrics(items);
      var labels := Labels(closed, key);
      && GroupSum(labels, closed, key, Unit) == |closed| as real
      && (|closed| == m.closed <==> forall item <- items :: IsClosed(item) ==> IsSettled(item))
      && GroupSum(labels, closed, key, Cny) == m.net
      && -0.005 * (|labels| as real + 1.0) <= ShownSum(labels, closed, key) - m.netShown <= 0.005 * (|labels| as real + 1.0)
  {
    var closed := Select(items, IsClosed);
    GroupsPartition(closed, key, Unit);
    WeighUnits(closed);
    GroupsPartition(closed, key, Cny);
    SettledCarryEverything(items);
    ShownSumIsNear(Labels(closed, key), closed, key);
  }

  // ---- the loops ----

  function WinRate(trades: seq<Item>): real
    requires trades != []
  {
    |Select(trades, Wins)| as real / |trades| as real
  }

  predicate Wins(item: Item) {
    item.result.Settled? && item.result.winning
  }

  function GroupOf(closed: seq<Item>, key: Item -> string, name: string): Group {
    var trades := Members(closed, key, name);
    Group(name, |trades|, Cents(Weigh(trades, Cny)), if trades == [] then 0.0 else WinRate(trades))
  }

  /** A label's group holds the items of that label, each as often as it occurs. */
  lemma {:induction false} MembersKeep<K>(items: seq<Item>, key: Item -> K, name: K, item: Item)
    ensures multiset(Members(items, key, name))[item] == if key(item) == name then multiset(items)[item] else 0
  {
    if items != [] {
      var n := |items| - 1;
      MembersKeep(items[..n], key, name, item);
      assert items == items[..n] + [items[n]];
      var last := if key(items[n]) == name then [items[n]] else [];
      assert multiset(Members(items[..n], key, name) + last) == multiset(Members(items[..n], key, name)) + multiset(last);
    }
  }

  predicate Winning(item: Item) { item.result.Settled? && item.result.winning }

  function Everything(item: Item): bool { true }

  /** A group shows its label, how many trades it has, what they made in cents, and the share of them that won. */
  lemma GroupMeans(closed: seq<Item>, key: Item -> string, name: string)
    ensures var g, trades := GroupOf(closed, key, name), Members(closed, key, name);
      && g.name == name && g.count == |trades| && g.shown == Cents(Total(trades, Everything, CnyOf))
      && g.winRate * g.count as real == HowMany(trades, Winning) as real
  {
    hide *;
    GroupIs(closed, key, name);
    var trades := Members(closed, key, name);
    EverythingWeighs(trades);
    RateMeans(trades);
  }

  lemma GroupIs(closed: seq<Item>, key: Item -> string, name: string)
    ensures var g, trades := GroupOf(closed, key, name), Members(closed, key, name);
      && g.name == name && g.count == |trades| && g.shown == Cents(Weigh(trades, Cny)) && g.winRate == Rate(trades)
  {
    hide Members, Weigh, Cents, WinRate;
  }

  function Rate(trades: seq<Item>): real {
    if trades == [] then 0.0 else WinRate(trades)
  }

  lemma RateMeans(trades: seq<Item>)
    ensures Rate(trades) * |trades| as real == HowMany(trades, Winning) as real
  {
    hide *;
    WinsAreCounted(trades);
    RateIs(trades, |Select(trades, Wins)|, |trades|);
    ShareOf(Rate(trades), |Select(trades, Wins)|, |trades|);
  }

  lemma RateIs(trades: seq<Item>, wins: nat, n: nat)
    requires wins == |Select(trades, Wins)| && n == |trades|
    ensures n == 0 ==> Rate(trades) == 0.0 && wins == 0
    ensures n > 0 ==> Rate(trades) == wins as real / n as real
  {
  }

  lemma ShareOf(rate: real, wins: nat, n: nat)
    requires if n == 0 then rate == 0.0 && wins == 0 else rate == wins as real / n as real
    ensures rate * n as real == wins as real
  {
    if n > 0 {
      ShareTimes(wins as real, n as real);
    }
  }

  lemma WinsAreCounted(trades: seq<Item>)
    ensures |Select(trades, Wins)| == HowMany(trades, Winning)
  {
    assert forall item :: Wins(item) == Winning(item);
    hide *;
    SameKind(trades, Wins, Winning, Cny, Cny);
  }

  lemma {:induction false} EverythingWeighs(items: seq<Item>)
    ensures Weigh(items, Cny) == Total(items, Everything, CnyOf)
  {
    if items != [] {
      EverythingWeighs(items[1..]);
      assert items == [items[0]] + items[1..];
      WeighSplits([items[0]], items[1..], Cny);
      WeighAppends([], items[0], Cny);
      assert [] + [items[0]] == [items[0]];
    }
  }

  /** The labels of the tables: two markets have names of their own, and what is missing is shown as not filled in. */
  lemma LabelsMean(item: Item)
    ensures item.market == "crypto" ==> MarketLabel(item) == "加密"
    ensures item.market == "a_share" ==> MarketLabel(item) == "A 股"
    ensures item.market == "" ==> MarketLabel(item) == "未填写"
    ensures item.market !in {"crypto", "a_share", ""} ==> MarketLabel(item) == item.market
    ensures StrategyLabel(item) == if item.strategy == "" then "未填写" else item.strategy
  {
  }

  function InsertGroup(g: Group, groups: seq<Group>): seq<Group> {
    if groups == [] || g.shown >= groups[0].shown then [g] + groups else [groups[0]] + InsertGroup(g, groups[1..])
  }

  /** sorted(..., reverse=True): descending, equal amounts in the order they came. */
  function SortGroups(groups: seq<Group>): seq<Group> {
    if groups == [] then [] else InsertGroup(groups[0], SortGroups(groups[1..]))
  }

  lemma {:induction false} InsertGroupPermutes(g: Group, groups: seq<Group>)
    ensures multiset(InsertGroup(g, groups)) == multiset{g} + multiset(groups)
  {
    if groups != [] && g.shown < groups[0].shown {
      InsertGroupPermutes(g, groups[1..]);
      assert groups == [groups[0]] + groups[1..];
    }
  }

  predicate Descending(groups: seq<Group>) {
    forall i, j | 0 <= i < j < |groups| :: groups[i].shown >= groups[j].shown
  }

  lemma {:induction false} InsertGroupSorts(g: Group, groups: seq<Group>)
    requires Descending(groups)
    ensures Descending(InsertGroup(g, groups))
  {
    if groups != [] && g.shown < groups[0].shown {
      var rest := InsertGroup(g, groups[1..]);
      InsertGroupSorts(g, groups[1..]);
      InsertGroupPermutes(g, groups[1..]);
      forall j | 0 <= j < |rest| ensures groups[0].shown >= rest[j].shown {
        assert rest[j] in multiset(rest);
      }
    }
  }

  lemma {:induction false} SortGroupsSorts(groups: seq<Group>)
    ensures multiset(SortGroups(groups)) == multiset(groups) && Descending(SortGroups(groups))
  {
    if groups != [] {
      SortGroupsSorts(groups[1..]);
      InsertGroupPermutes(groups[0], SortGroups(groups[1..]));
      InsertGroupSorts(groups[0], SortGroups(groups[1..]));
      assert groups == [groups[0]] + groups[1..];
    }
  }

  function GroupsOf(labels: seq<string>, closed: seq<Item>, key: Item -> string): seq<Group> {
    seq(|labels|, i requires 0 <= i < |labels| => GroupOf(closed, key, labels[i]))
  }

  /** The dict of the grouping loop after some of the closed trades. */
  ghost predicate Grouped(order: seq<string>, groups: map<string, seq<Item>>, closed: seq<Item>, key: Item -> string) {
    && order == Labels(closed, key) && (forall l :: l in groups <==> l in order)
    && (forall l <- order :: groups[l] == Members(closed, key, l))
  }

  function Added(groups: map<string, seq<Item>>, name: string, item: Item): map<string, seq<Item>> {
    groups[name := (if name in groups then groups[name] else []) + [item]]
  }

  lemma GroupedGrows(order: seq<string>, groups: map<string, seq<Item>>, closed: seq<Item>, key: Item -> string, item: Item)
    requires Grouped(order, groups, closed, key)
    ensures Grouped(if key(item) in order then order else order + [key(item)], Added(groups, key(item), item), closed + [item], key)
  {
    assert (closed + [item])[..|closed|] == closed;
    var name, after := key(item), Added(groups, key(item), item);
    forall l | l in Labels(closed + [item], key) ensures after[l] == Members(closed + [item], key, l) {
      if l == name {
        if name !in order { MembersOfUnknown(closed, key, name); }
      } else {
        assert Members(closed, key, l) + [] == Members(closed, key, l);
      }
    }
  }

  lemma SelectStep(items: seq<Item>, i: nat)
    requires i < |items|
    ensures Select(items[..i + 1], IsClosed) == if IsClosed(items[i]) then Select(items[..i], IsClosed) + [items[i]] else Select(items[..i], IsClosed)
  {
    assert items[..i + 1][..i] == items[..i];
    assert Select(items[..i], IsClosed) + [] == Select(items[..i], IsClosed);
  }

  /** breakdown: one group per label, in descending order of the shown amount. What the groups show adds up. */
  method Breakdown(items: seq<Item>, key: Item -> string) returns (result: seq<Group>)
    ensures var closed := Select(items, IsClosed);
      && multiset(result) == multiset(GroupsOf(Labels(closed, key), closed, key)) && Descending(result)
    ensures Reconciled(|result|, Weigh(result, Count), Weigh(result, Amount), items)
  {
    var order: seq<string>, groups: map<string, seq<Item>> := [], map[];
    for i := 0 to |items|
      invariant Grouped(order, groups, Select(items[..i], IsClosed), key)
    {
      hide Grouped, Select;
      SelectStep(items, i);
      if !items[i].status.Closed? {
        continue;
      }
      GroupedGrows(order, groups, Select(items[..i], IsClosed), key, items[i]);
      var name := key(items[i]);
      groups := groups[name := (if name in groups then groups[name] else []) + [items[i]]];
      order := if name in order then order else order + [name];
    }
    assert items[..|items|] == items;
    ghost var closed := Select(items, IsClosed);
    var unsorted := Summaries(order, groups, closed, key);
    SortGroupsSorts(unsorted);
    result := SortGroups(unsorted);
    hide *;
    OrderIsLabels(order, groups, closed, key);
    GroupsReconcile(items, key, result);
  }

  lemma OrderIsLabels(order: seq<string>, groups: map<string, seq<Item>>, closed: seq<Item>, key: Item -> string)
    requires Grouped(order, groups, closed, key)
    ensures order == Labels(closed, key)
  {
  }

  function Count(g: Group): real { g.count as real }

  function Amount(g: Group): real { g.shown }

  /** Rows of a table that count every closed trade once, and whose amounts add up to the shown net within half
      a cent for each row and one for the net. */
  predicate Reconciled(rows: nat, count: real, shown: real, items: seq<Item>) {
    && count == |Select(items, IsClosed)| as real
    && Near(shown, AggregateMetrics(items).netShown, 0.005 * (rows as real + 1.0))
  }

  /** The sums over the returned groups are the sums over the labels. */
  lemma {:induction false} SumsOfGroups(labels: seq<string>, closed: seq<Item>, key: Item -> string)
    ensures Weigh(GroupsOf(labels, closed, key), Count) == GroupSum(labels, closed, key, Unit)
    ensures Weigh(GroupsOf(labels, closed, key), Amount) == ShownSum(labels, closed, key)
  {
    if labels != [] {
      var n := |labels| - 1;
      SumsOfGroups(labels[..n], closed, key);
      var last := GroupOf(closed, key, labels[n]);
      assert GroupsOf(labels, closed, key) == GroupsOf(labels[..n], closed, key) + [last];
      WeighAppends(GroupsOf(labels[..n], closed, key), last, Count);
      WeighAppends(GroupsOf(labels[..n], closed, key), last, Amount);
      WeighUnits(Members(closed, key, labels[n]));
    }
  }

  lemma GroupsReconcile(items: seq<Item>, key: Item -> string, result: seq<Group>)
    requires var closed := Select(items, IsClosed);
      multiset(result) == multiset(GroupsOf(Labels(closed, key), closed, key))
    ensures Reconciled(|result|, Weigh(result, Count), Weigh(result, Amount), items)
  {
    hide Weigh, GroupSum, ShownSum, Labels, AggregateMetrics, Select, GroupOf;
    var closed := Select(items, IsClosed);
    var labels := Labels(closed, key);
    WeighPermutes(result, GroupsOf(labels, closed, key), Count);
    WeighPermutes(result, GroupsOf(labels, closed, key), Amount);
    SumsOfGroups(labels, closed, key);
    TablesReconcile(items, key);
  }

  method Summaries(order: seq<string>, groups: map<string, seq<Item>>, ghost closed: seq<Item>, key: Item -> string)
    returns (result: seq<Group>)
    requires Grouped(order, groups, closed, key)
    ensures result == GroupsOf(order, closed, key)
  {
    result := [];
    for i := 0 to |order|
      invariant result == GroupsOf(order, closed, key)[..i]
    {
      var trades := groups[order[i]];
      var pnl := Weigh(trades, Cny);
      result := result + [Group(order[i], |trades|, Cents(pnl), if trades == [] then 0.0 else WinRate(trades))];
    }
  }

  /** The running totals of the daily table after some of the closed trades. */
  ghost predicate Tallied(daily: map<int, (real, nat)>, closed: seq<Item>) {
    && (forall d :: d in daily <==> d in Labels(closed, Day))
    && (forall d <- daily :: daily[d] == (Weigh(Members(closed, Day, d), Cny), |Members(closed, Day, d)|))
  }

  function Tally(daily: map<int, (real, nat)>, item: Item): map<int, (real, nat)> {
    var (pnl, count) := if Day(item) in daily then daily[Day(item)] else (0.0, 0);
    daily[Day(item) := (pnl + Cny(item), count + 1)]
  }

  lemma TalliedGrows(daily: map<int, (real, nat)>, closed: seq<Item>, item: Item)
    requires Tallied(daily, closed)
    ensures Tallied(Tally(daily, item), closed + [item])
  {
    assert (closed + [item])[..|closed|] == closed;
    var day, after := Day(item), Tally(daily, item);
    forall d | d in after ensures after[d] == (Weigh(Members(closed + [item], Day, d), Cny), |Members(closed + [item], Day, d)|) {
      if d == day {
        if day !in daily { MembersOfUnknown(closed, Day, day); }
        WeighAppends(Members(closed, Day, day), item, Cny);
      } else {
        assert Members(closed, Day, d) + [] == Members(closed, Day, d);
      }
    }
  }

  lemma NothingTallied(items: seq<Item>)
    ensures Tallied(map[], Select(items[..0], IsClosed)) && Labels(Select(items[..0], IsClosed), Day) == []
  {
  }

  /** A row of the daily table. */
  datatype DailyPnl = DailyPnl(day: int, shown: real, count: nat)

  function DayCount(row: DailyPnl): real { row.count as real }

  function DayAmount(row: DailyPnl): real { row.shown }

  function DayRow(closed: seq<Item>, day: int): DailyPnl {
    DailyPnl(day, Cents(Weigh(Members(closed, Day, day), Cny)), |Members(closed, Day, day)|)
  }

  function DayRows(days: seq<int>, closed: seq<Item>): seq<DailyPnl> {
    seq(|days|, i requires 0 <= i < |days| => DayRow(closed, days[i]))
  }

  function InsertDay(day: int, days: seq<int>): seq<int> {
    if days == [] || day <= days[0] then [day] + days else [days[0]] + InsertDay(day, days[1..])
  }

  /** sorted(daily.items()): the dates are keys, so no amount is ever compared. */
  function SortDays(days: seq<int>): seq<int> {
    if days == [] then [] else InsertDay(days[0], SortDays(days[1..]))
  }

  predicate InDateOrder(days: seq<int>) {
    forall i, j | 0 <= i < j < |days| :: days[i] <= days[j]
  }

  lemma {:induction false} InsertDayPermutes(day: int, days: seq<int>)
    ensures multiset(InsertDay(day, days)) == multiset{day} + multiset(days)
  {
    if days != [] && day > days[0] {
      InsertDayPermutes(day, days[1..]);
      assert days == [days[0]] + days[1..];
    }
  }

  lemma {:induction false} InsertDaySorts(day: int, days: seq<int>)
    requires InDateOrder(days)
    ensures InDateOrder(InsertDay(day, days))
  {
    if days != [] && day > days[0] {
      var rest := InsertDay(day, days[1..]);
      InsertDaySorts(day, days[1..]);
      InsertDayPermutes(day, days[1..]);
      forall j | 0 <= j < |rest| ensures days[0] <= rest[j] {
        assert rest[j] in multiset(rest);
      }
    }
  }

  lemma {:induction false} SortDaysSorts(days: seq<int>)
    ensures multiset(SortDays(days)) == multiset(days) && InDateOrder(SortDays(days))
  {
    if days != [] {
      SortDaysSorts(days[1..]);
      InsertDayPermutes(days[0], SortDays(days[1..]));
      InsertDaySorts(days[0], SortDays(days[1..]));
      assert days == [days[0]] + days[1..];
    }
  }

  /** The order in which the days first occurred. */
  function Noted(order: seq<int>, day: int): seq<int> {
    if day in order then order else order + [day]
  }

  /** The daily table: a row for each day of a closed trade and no other, in date order. */
  method DailyTable(items: seq<Item>) returns (result: seq<DailyPnl>)
    ensures var closed := Select(items, IsClosed);
      result == DayRows(SortDays(Labels(closed, Day)), closed)
    ensures Reconciled(|result|, Weigh(result, DayCount), Weigh(result, DayAmount), items)
  {
    hide Tallied, Select, Labels, Members, Weigh;
    var order: seq<int>, daily: map<int, (real, nat)> := [], map[];
    NothingTallied(items);
    for i := 0 to |items|
      invariant Tallied(daily, Select(items[..i], IsClosed)) && order == Labels(Select(items[..i], IsClosed), Day)
    {
      SelectStep(items, i);
      if !items[i].status.Closed? {
        continue;
      }
      TalliedGrows(daily, Select(items[..i], IsClosed), items[i]);
      LabelsGrow(Select(items[..i], IsClosed), items[i], Day);
      var key := items[i].day;
      var (pnl, count) := if key in daily then daily[key] else (0.0, 0);
      daily := daily[key := (pnl + Cny(items[i]), count + 1)];
      order := Noted(order, key);
    }
    assert items[..|items|] == items;
    ghost var closed := Select(items, IsClosed);
    SortDaysSorts(order);
    var days := SortDays(order);
    forall i | 0 <= i < |days| ensures days[i] in Labels(closed, Day) {
      assert days[i] in multiset(days);
    }
    result := Quantized(days, daily, closed);
    DaysReconcile(items, days);
  }

  method Quantized(days: seq<int>, daily: map<int, (real, nat)>, ghost closed: seq<Item>) returns (result: seq<DailyPnl>)
    requires Tallied(daily, closed) && forall i | 0 <= i < |days| :: days[i] in Labels(closed, Day)
    ensures result == DayRows(days, closed)
  {
    result := [];
    for i := 0 to |days|
      invariant result == DayRows(days, closed)[..i]
    {
      result := result + [DailyPnl(days[i], Cents(daily[days[i]].0), daily[days[i]].1)];
    }
  }

  lemma {:induction false} SumsOfDays(days: seq<int>, closed: seq<Item>)
    ensures Weigh(DayRows(days, closed), DayCount) == GroupSum(days, closed, Day, Unit)
    ensures Weigh(DayRows(days, closed), DayAmount) == ShownSum(days, closed, Day)
  {
    if days != [] {
      var n := |days| - 1;
      SumsOfDays(days[..n], closed);
      var last := DayRow(closed, days[n]);
      assert DayRows(days, closed) == DayRows(days[..n], closed) + [last];
      WeighAppends(DayRows(days[..n], closed), last, DayCount);
      WeighAppends(DayRows(days[..n], closed), last, DayAmount);
      WeighUnits(Members(closed, Day, days[n]));
    }
  }

  lemma Without(days: seq<int>, i: nat)
    requires i < |days|
    ensures multiset(days[..i] + days[i + 1..]) == multiset(days) - multiset{days[i]}
  {
    assert days == days[..i] + [days[i]] + days[i + 1..];
  }

  lemma RowsWithout(days: seq<int>, i: nat, closed: seq<Item>)
    requires i < |days|
    ensures multiset(DayRows(days, closed)) == multiset(DayRows(days[..i] + days[i + 1..], closed)) + multiset{DayRow(closed, days[i])}
  {
    hide DayRow;
    var rows := DayRows(days, closed);
    assert rows == rows[..i] + [rows[i]] + rows[i + 1..];
    assert DayRows(days[..i] + days[i + 1..], closed) == rows[..i] + rows[i + 1..];
  }

  lemma FindPartner(a: seq<int>, b: seq<int>) returns (i: nat)
    requires multiset(a) == multiset(b) && a != []
    ensures i < |b| && b[i] == a[0] && multiset(a[..0] + a[1..]) == multiset(b[..i] + b[i + 1..])
  {
    assert a[0] in multiset(b);
    i :| 0 <= i < |b| && b[i] == a[0];
    Without(a, 0);
    Without(b, i);
  }

  lemma {:induction false} RowsOfPermuted(a: seq<int>, b: seq<int>, closed: seq<Item>)
    requires multiset(a) == multiset(b)
    ensures multiset(DayRows(a, closed)) == multiset(DayRows(b, closed))
    decreases |a|
  {
    hide DayRow, DayRows;
    if a == [] {
      assert |multiset(b)| == 0;
    } else {
      var i := FindPartner(a, b);
      RowsWithout(a, 0, closed);
      RowsWithout(b, i, closed);
      RowsOfPermuted(a[..0] + a[1..], b[..i] + b[i + 1..], closed);
    }
  }

  lemma DaysReconcile(items: seq<Item>, days: seq<int>)
    requires multiset(days) == multiset(Labels(Select(items, IsClosed), Day))
    ensures var rows := DayRows(days, Select(items, IsClosed));
      Reconciled(|rows|, Weigh(rows, DayCount), Weigh(rows, DayAmount), items)
  {
    hide Weigh, GroupSum, ShownSum, Labels, AggregateMetrics, Select, DayRow;
    var closed := Select(items, IsClosed);
    var labels := Labels(closed, Day);
    RowsOfPermuted(days, labels, closed);
    WeighPermutes(DayRows(days, closed), DayRows(labels, closed), DayCount);
    WeighPermutes(DayRows(days, closed), DayRows(labels, closed), DayAmount);
    SumsOfDays(labels, closed);
    TablesReconcile(items, Day);
  }

  /** What the dashboard shows of one page. */
  datatype Page = Page(metrics: Metrics, daily: seq<DailyPnl>, byMarket: seq<Group>, byStrategy: seq<Group>)

  /** The metrics are those of the items, each table reconciles with them, and each group is named after a closed trade. */
  ghost predicate PageReconciles(page: Page, items: seq<Item>) {
    && page.metrics == AggregateMetrics(items)
    && Reconciled(|page.daily|, Weigh(page.daily, DayCount), Weigh(page.daily, DayAmount), items)
    && Reconciled(|page.byMarket|, Weigh(page.byMarket, Count), Weigh(page.byMarket, Amount), items)
    && Reconciled(|page.byStrategy|, Weigh(page.byStrategy, Count), Weigh(page.byStrategy, Amount), items)
    && (forall g <- page.byMarket :: exists item <- items :: IsClosed(item) && g.name == MarketLabel(item))
    && (forall g <- page.byStrategy :: exists item <- items :: IsClosed(item) && g.name == StrategyLabel(item))
  }

  /** dashboard: the metrics and the three tables of one page. */
  method Tables(items: seq<Item>) returns (page: Page)
    ensures PageReconciles(page, items)
  {
    hide Reconciled, AggregateMetrics, Weigh, MarketLabel, StrategyLabel;
    var daily := DailyTable(items);
    var byMarket := Breakdown(items, MarketLabel);
    NamesOccur(items, MarketLabel, byMarket);
    var byStrategy := Breakdown(items, StrategyLabel);
    NamesOccur(items, StrategyLabel, byStrategy);
    page := Page(AggregateMetrics(items), daily, byMarket, byStrategy);
  }

  /** Every group is named after a closed trade. */
  lemma NamesOccur(items: seq<Item>, key: Item -> string, result: seq<Group>)
    requires var closed := Select(items, IsClosed);
      multiset(result) == multiset(GroupsOf(Labels(closed, key), closed, key))
    ensures forall g <- result :: exists item <- items :: IsClosed(item) && g.name == key(item)
  {
    var closed := Select(items, IsClosed);
    forall g | g in result ensures exists item <- items :: IsClosed(item) && g.name == key(item) {
      assert g in multiset(result);
      assert g.name in Labels(closed, key);
      LabelsOccur(closed, key);
      SelectedOccur(items, IsClosed);
    }
  }

  lemma {:induction false} LabelsOccur(items: seq<Item>, key: Item -> string)
    ensures forall name <- Labels(items, key) :: exists item <- items :: key(item) == name
  {
    if items != [] {
      LabelsOccur(items[..|items| - 1], key);
      assert items[|items| - 1] in items;
    }
  }

  lemma {:induction false} SelectedOccur(items: seq<Item>, p: Item -> bool)
    ensures forall item <- Select(items, p) :: item in items && p(item)
  {
    if items != [] {
      SelectedOccur(items[..|items| - 1], p);
    }
  }

  function Day(item: Item): int {
    item.day
  }

  function MarketLabel(item: Item): string {
    if item.market == "crypto" then "加密" else if item.market == "a_share" then "A 股" else Filled(item.market)
  }

  function StrategyLabel(item: Item): string {
    Filled(item.strategy)
  }

  function Filled(text: string): string {
    if text == "" then "未填写" else text
  }
}

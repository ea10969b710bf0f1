/** The statistics panel: the category histogram folded over the goals,
    the pie slices projected from it, the palette the slices cycle through,
    the overview badge colour, and the guard that hides the panel when
    there are no goals. */
module ProgressStats {
  import opened Results
  import opened Goals
  import GoalCard

  /** One key of the `Record<string, number>` accumulator with its count.
      A JavaScript object lists string keys in insertion order, so the
      histogram is kept as a list of entries in that order. */
  datatype Entry = Entry(name: string, count: nat)

  function Keys(es: seq<Entry>): set<string>
  {
    if es == [] then {} else {es[0].name} + Keys(es[1..])
  }

  /** `Keys` holds exactly the names of the entries. */
  lemma {:induction false} KeysAreNames(es: seq<Entry>)
    ensures forall i :: 0 <= i < |es| ==> es[i].name in Keys(es)
    ensures forall c :: c in Keys(es) ==> exists i :: 0 <= i < |es| && es[i].name == c
  {
    if es != [] {
      KeysAreNames(es[1..]);
      forall i | 0 < i < |es| ensures es[i].name in Keys(es) {
        assert es[1..][i - 1] == es[i];
      }
      forall c | c in Keys(es) ensures exists i :: 0 <= i < |es| && es[i].name == c {
        if c != es[0].name {
          var k :| 0 <= k < |es| - 1 && es[1..][k].name == c;
          assert es[k + 1].name == c;
        }
      }
    }
  }

  /** No key occurs twice. */
  predicate DistinctKeys(es: seq<Entry>)
  {
    forall i, j :: 0 <= i < j < |es| ==> es[i].name != es[j].name
  }

  /** `acc[c] || 0`: the count stored under `c`, or 0 when there is none. */
  function Lookup(es: seq<Entry>, c: string): (n: nat)
    ensures c !in Keys(es) ==> n == 0
    ensures n > 0 ==> exists i :: 0 <= i < |es| && es[i].name == c && es[i].count == n
  {
    if es == [] then 0
    else if es[0].name == c then es[0].count
    else Lookup(es[1..], c)
  }

  /** The sum of all counts. */
  function Total(es: seq<Entry>): nat
  {
    if es == [] then 0 else es[0].count + Total(es[1..])
  }

  /** `acc[c] = (acc[c] || 0) + 1`: an existing key is incremented in place,
      a new key is added at the end with count 1. */
  function Bump(es: seq<Entry>, c: string): (r: seq<Entry>)
    ensures Lookup(r, c) == Lookup(es, c) + 1
    ensures forall d :: d != c ==> Lookup(r, d) == Lookup(es, d)
    ensures Keys(r) == Keys(es) + {c}
    ensures Total(r) == Total(es) + 1
    ensures DistinctKeys(es) ==> DistinctKeys(r)
  {
    if es == [] then [Entry(c, 1)]
    else if es[0].name == c then [Entry(c, es[0].count + 1)] + es[1..]
    else
      var rest := Bump(es[1..], c);
      DistinctTail(es);
      ConsEntry(es[0], rest);
      [es[0]] + rest
  }

  /** An entry put in front of a list adds its name, its count and its
      lookup, and keeps the keys distinct when its name is new. */
  lemma ConsEntry(head: Entry, rest: seq<Entry>)
    ensures Keys([head] + rest) == {head.name} + Keys(rest)
    ensures Total([head] + rest) == head.count + Total(rest)
    ensures forall d :: Lookup([head] + rest, d) == if head.name == d then head.count else Lookup(rest, d)
    ensures DistinctKeys(rest) && head.name !in Keys(rest) ==> DistinctKeys([head] + rest)
  {
    assert ([head] + rest)[1..] == rest;
    KeysAreNames(rest);
  }

  /** The tail of a list with distinct keys has distinct keys, none of
      them the head's. */
  lemma DistinctTail(es: seq<Entry>)
    requires es != []
    ensures DistinctKeys(es) ==> DistinctKeys(es[1..]) && es[0].name !in Keys(es[1..])
  {
    KeysAreNames(es[1..]);
  }

  /** The `reduce` over the goals, from left to right: it adds one to the
      total per goal and each goal's category to the keys, and keeps the
      keys distinct. */
  function Tally(acc: seq<Entry>, goals: seq<Goal>): (r: seq<Entry>)
    ensures Total(r) == Total(acc) + |goals|
    ensures Keys(r) == Keys(acc) + Categories(goals)
    ensures DistinctKeys(acc) ==> DistinctKeys(r)
    decreases |goals|
  {
    if goals == [] then acc else Tally(Bump(acc, goals[0].category), goals[1..])
  }

  /** `categoryData`: its keys are the categories that occur, once each,
      and its counts add up to the number of goals. */
  function CategoryHistogram(goals: seq<Goal>): (r: seq<Entry>)
    ensures Keys(r) == Categories(goals)
    ensures DistinctKeys(r)
    ensures Total(r) == |goals|
  {
    Tally([], goals)
  }

  /** How many goals have category `c`, whatever their status. */
  function CountCategory(goals: seq<Goal>, c: string): nat
  {
    if goals == [] then 0
    else (if goals[0].category == c then 1 else 0) + CountCategory(goals[1..], c)
  }

  function Categories(goals: seq<Goal>): set<string>
  {
    if goals == [] then {} else {goals[0].category} + Categories(goals[1..])
  }

  lemma {:induction false} TallyCounts(acc: seq<Entry>, goals: seq<Goal>, c: string)
    ensures Lookup(Tally(acc, goals), c) == Lookup(acc, c) + CountCategory(goals, c)
    decreases |goals|
  {
    if goals != [] {
      TallyCounts(Bump(acc, goals[0].category), goals[1..], c);
    }
  }

  /** The histogram counts every goal, by category and regardless of
      status: the count under `c` is the number of goals in category `c`. */
  lemma CategoryHistogramCounts(goals: seq<Goal>)
    ensures forall c :: Lookup(CategoryHistogram(goals), c) == CountCategory(goals, c)
  {
    forall c ensures Lookup(CategoryHistogram(goals), c) == CountCategory(goals, c) {
      TallyCounts([], goals, c);
    }
  }

  /** One slice of the category pie chart. */
  datatype Slice = Slice(name: string, value: nat)

  /** `pieData`: one slice per histogram key, in key order. */
  function PieData(es: seq<Entry>): (r: seq<Slice>)
    ensures |r| == |es|
    ensures forall i :: 0 <= i < |es| ==> r[i].name == es[i].name && r[i].value == es[i].count
  {
    seq(|es|, i requires 0 <= i < |es| => Slice(es[i].name, es[i].count))
  }

  function SliceTotal(r: seq<Slice>): nat
  {
    if r == [] then 0 else r[0].value + SliceTotal(r[1..])
  }

  lemma {:induction false} PieDataTotal(es: seq<Entry>)
    ensures SliceTotal(PieData(es)) == Total(es)
  {
    if es != [] {
      PieDataTotal(es[1..]);
      assert PieData(es)[1..] == PieData(es[1..]);
    }
  }

  /** The category chart the panel draws, or `None` when it renders
      nothing. */
  function CategoryChart(goals: seq<Goal>): (r: Option<seq<Slice>>)
    ensures r.None? <==> goals == []
  {
    if |goals| == 0 then None else Some(PieData(CategoryHistogram(goals)))
  }

  /** The pie has one slice per category that occurs, each valued at the
      number of goals in it, and its values add up to the number of goals. */
  lemma CategoryChartShape(goals: seq<Goal>)
    ensures CategoryChart(goals).Some? ==>
      var slices := CategoryChart(goals).value;
      && |slices| == |Categories(goals)|
      && SliceTotal(slices) == |goals|
      && (forall i :: 0 <= i < |slices| ==> slices[i].value == CountCategory(goals, slices[i].name))
  {
    if goals != [] {
      var es := CategoryHistogram(goals);
      CategoryHistogramCounts(goals);
      PieDataTotal(es);
      DistinctKeysCardinality(es);
      forall i | 0 <= i < |es| ensures es[i].count == CountCategory(goals, es[i].name) {
        LookupDistinct(es, i);
      }
    }
  }

  /** With distinct keys, the list has as many entries as keys. */
  lemma {:induction false} DistinctKeysCardinality(es: seq<Entry>)
    requires DistinctKeys(es)
    ensures |Keys(es)| == |es|
  {
    if es != [] {
      DistinctKeysCardinality(es[1..]);
      KeysAreNames(es[1..]);
      assert es[0].name !in Keys(es[1..]);
    }
  }

  /** With distinct keys, looking up an entry's own key finds that entry. */
  lemma {:induction false} LookupDistinct(es: seq<Entry>, i: nat)
    requires DistinctKeys(es) && i < |es|
    ensures Lookup(es, es[i].name) == es[i].count
  {
    if i > 0 {
      LookupDistinct(es[1..], i - 1);
    }
  }

  /** `COLORS`: the five-colour palette the slices cycle through. */
  const Colors: seq<string> := [
    "hsl(var(--primary))", "hsl(var(--success))", "hsl(var(--warning))",
    "hsl(var(--destructive))", "hsl(var(--accent))"
  ]

  /** `COLORS[index % COLORS.length]`: always a palette colour. */
  function SliceColor(index: nat): (c: string)
    ensures c in Colors
  {
    Colors[index % |Colors|]
  }

  /** Slices fewer than five places apart never share a colour. */
  lemma NeighbouringSlicesDiffer(i: nat, j: nat)
    requires i < j < i + |Colors|
    ensures SliceColor(i) != SliceColor(j)
  {
  }

  /** The status badge colour in the goal progress overview. */
  function OverviewBadgeColor(status: Status): (c: string)
    ensures c == "bg-success" <==> status == Completed
    ensures c == "bg-warning" <==> status == Paused
    ensures c == "bg-primary" <==> status == Active
  {
    assert "bg-success"[3] == 's' && "bg-warning"[3] == 'w' && "bg-primary"[3] == 'p';
    match status
    case Completed => "bg-success"
    case Paused => "bg-warning"
    case Active => "bg-primary"
  }

  /** The overview badge uses the same background as the goal card's
      status badge. */
  lemma OverviewBadgeMatchesCard(status: Status)
    ensures var card := GoalCard.StatusColor(StatusName(status));
      |OverviewBadgeColor(status)| < |card| && card[..|OverviewBadgeColor(status)|] == OverviewBadgeColor(status)
  {
  }
}

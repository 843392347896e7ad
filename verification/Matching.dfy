/** Requests, the backends they end at, and the precedence among several matches. */
module Matching {

  import opened Wrappers

  datatype Request = Request(host: string, path: string, headers: map<string, string>)

  /** One backend of a routing decision with its share of the traffic. */
  datatype Target = Target(service: string, port: int, share: real, headers: map<string, string>)

  datatype Rank = Rank(pathLength: nat, headerCount: nat)

  /** The longest path first, then the largest number of header matches. */
  predicate Outranks(a: Rank, b: Rank) {
    a.pathLength > b.pathLength || (a.pathLength == b.pathLength && a.headerCount > b.headerCount)
  }

  /** `i` matches, nothing outranks it, and nothing earlier ties with it. */
  ghost predicate IsBest(ranks: seq<Option<Rank>>, i: nat) {
    && i < |ranks| && ranks[i].Some?
    && (forall j :: 0 <= j < |ranks| && ranks[j].Some? ==> !Outranks(ranks[j].value, ranks[i].value))
    && (forall j :: 0 <= j < i && ranks[j].Some? ==> Outranks(ranks[i].value, ranks[j].value))
  }

  /** The match that has precedence, if any candidate matches. */
  function Select(ranks: seq<Option<Rank>>): (best: Option<nat>)
    ensures best.Some? ==> IsBest(ranks, best.value)
    ensures best.None? <==> forall i :: 0 <= i < |ranks| ==> ranks[i].None?
  {
    if ranks == [] then None
    else
      var n := |ranks| - 1;
      var front := Select(ranks[..n]);
      assert forall i :: 0 <= i < n ==> ranks[..n][i] == ranks[i];
      if ranks[n].None? then front
      else if front.None? || Outranks(ranks[n].value, ranks[front.value].value) then Some(n)
      else front
  }

  /** Precedence picks out one candidate only. */
  lemma BestIsSelected(ranks: seq<Option<Rank>>, i: nat)
    requires IsBest(ranks, i)
    ensures Select(ranks) == Some(i)
  {
    assert ranks[i].Some?;
    assert Select(ranks).Some?;
  }

  lemma MissesChangeNothing(misses: seq<Option<Rank>>, plain: seq<Option<Rank>>, b: nat)
    requires IsBest(plain, b) && forall i :: 0 <= i < |misses| ==> misses[i].None?
    ensures IsBest(misses + plain, |misses| + b)
  {
    var n, all := |misses|, misses + plain;
    assert all[n + b] == plain[b];
    forall j | 0 <= j < |all| && all[j].Some?
      ensures !Outranks(all[j].value, all[n + b].value)
      ensures j < n + b ==> Outranks(all[n + b].value, all[j].value)
    {
      assert n <= j && all[j] == plain[j - n];
    }
  }

  lemma NothingButMisses(misses: seq<Option<Rank>>, plain: seq<Option<Rank>>)
    requires forall i :: 0 <= i < |misses| ==> misses[i].None?
    requires forall i :: 0 <= i < |plain| ==> plain[i].None?
    ensures Select(misses + plain) == None
  {
  }

  /** Candidates that do not match can be put in front. */
  lemma SelectBehindMisses(misses: seq<Option<Rank>>, plain: seq<Option<Rank>>)
    requires forall i :: 0 <= i < |misses| ==> misses[i].None?
    ensures var before, after := Select(plain), Select(misses + plain);
            after == if before.None? then None else Some(|misses| + before.value)
  {
    var best := Select(plain);
    if best.None? {
      NothingButMisses(misses, plain);
    } else {
      MissesChangeNothing(misses, plain, best.value);
      BestIsSelected(misses + plain, |misses| + best.value);
    }
  }

  /** `twin` matches where `plain` does, with one more header. */
  ghost predicate OneHeaderMore(twin: Option<Rank>, plain: Option<Rank>) {
    && twin.Some? == plain.Some?
    && (plain.Some? ==> twin.value == Rank(plain.value.pathLength, plain.value.headerCount + 1))
  }

  /** `plain` matches only where `twin` does, and does not outrank it there. */
  ghost predicate Under(plain: Option<Rank>, twin: Option<Rank>) {
    plain.Some? ==> twin.Some? && !Outranks(plain.value, twin.value)
  }

  /** Twins that match where `bare` candidates would, each with one more header, and outrank the
      plain ones behind them, win where the bare ones would. */
  lemma SelectTwins(twins: seq<Option<Rank>>, plain: seq<Option<Rank>>, bare: seq<Option<Rank>>)
    requires |twins| == |plain| == |bare|
    requires forall i :: 0 <= i < |bare| ==> OneHeaderMore(twins[i], bare[i]) && Under(plain[i], twins[i])
    ensures Select(twins + plain) == Select(bare)
  {
    var n, all, best := |plain|, twins + plain, Select(bare);
    assert forall i :: n <= i < |all| ==> all[i] == plain[i - n];
    if best.Some? {
      var b := best.value;
      assert OneHeaderMore(twins[b], bare[b]);
      forall j | 0 <= j < |all| && all[j].Some?
        ensures !Outranks(all[j].value, all[b].value) && (j < b ==> Outranks(all[b].value, all[j].value))
      {
        var twin := if j < n then j else j - n;
        assert OneHeaderMore(twins[twin], bare[twin]) && Under(plain[twin], twins[twin]);
      }
      BestIsSelected(all, b);
    } else {
      forall j | 0 <= j < |all| ensures all[j].None? {
        var twin := if j < n then j else j - n;
        assert OneHeaderMore(twins[twin], bare[twin]) && Under(plain[twin], twins[twin]);
      }
    }
  }

  // ---------- Several groups of candidates ----------

  datatype Place = Place(group: nat, item: nat)

  predicate Before(a: Place, b: Place) {
    a.group < b.group || (a.group == b.group && a.item < b.item)
  }

  predicate Matches(groups: seq<seq<Option<Rank>>>, p: Place) {
    p.group < |groups| && p.item < |groups[p.group]| && groups[p.group][p.item].Some?
  }

  function RankAt(groups: seq<seq<Option<Rank>>>, p: Place): Rank
    requires Matches(groups, p)
  {
    groups[p.group][p.item].value
  }

  /** The candidate at `p` matches, no other in any group outranks it, and none before it ties with it. */
  ghost predicate IsBestAcross(groups: seq<seq<Option<Rank>>>, p: Place) {
    && Matches(groups, p)
    && forall q :: Matches(groups, q) ==>
         && !Outranks(RankAt(groups, q), RankAt(groups, p))
         && (Before(q, p) ==> Outranks(RankAt(groups, p), RankAt(groups, q)))
  }

  function BestRank(ranks: seq<Option<Rank>>): Option<Rank> {
    var best := Select(ranks);
    if best.None? then None else ranks[best.value]
  }

  function BestRanks(groups: seq<seq<Option<Rank>>>): seq<Option<Rank>> {
    seq(|groups|, i requires 0 <= i < |groups| => BestRank(groups[i]))
  }

  /** The match that has precedence among all groups. */
  function SelectAcross(groups: seq<seq<Option<Rank>>>): (best: Option<Place>)
    ensures best.Some? ==> Matches(groups, best.value)
  {
    var group := Select(BestRanks(groups));
    if group.None? then None else Some(Place(group.value, Select(groups[group.value]).value))
  }

  /** Choosing the best of each group's best is choosing the best of all, the earliest group and
      then the earliest candidate in it among equals; nothing is chosen just if nothing matches. */
  lemma SelectAcrossIsBest(groups: seq<seq<Option<Rank>>>)
    ensures match SelectAcross(groups)
            case Some(p) => IsBestAcross(groups, p)
            case None => forall q :: !Matches(groups, q)
  {
    var bests, best := BestRanks(groups), SelectAcross(groups);
    forall q | Matches(groups, q)
      ensures best.Some?
      ensures !Outranks(RankAt(groups, q), RankAt(groups, best.value))
      ensures Before(q, best.value) ==> Outranks(RankAt(groups, best.value), RankAt(groups, q))
    {
      assert bests[q.group] == BestRank(groups[q.group]);
      assert bests[q.group].Some? && !Outranks(RankAt(groups, q), bests[q.group].value);
    }
  }

  lemma BestAcrossIsSelected(groups: seq<seq<Option<Rank>>>, p: Place)
    requires IsBestAcross(groups, p)
    ensures SelectAcross(groups) == Some(p)
  {
    SelectAcrossIsBest(groups);
    var q := SelectAcross(groups).value;
    assert !Before(p, q) && !Before(q, p);
  }

  /** A group no later group adds a rank to, and no earlier one matches before, has the best of all. */
  lemma BestOfGroup(groups: seq<seq<Option<Rank>>>, p: Place)
    requires p.group < |groups| && IsBest(groups[p.group], p.item)
    requires forall q :: Matches(groups, q) ==> p.group <= q.group && Some(RankAt(groups, q)) in groups[p.group]
    ensures SelectAcross(groups) == Some(p)
  {
    BestAcrossIsSelected(groups, p);
  }

  // ---------- Orders ----------

  /** A way to list `n` things: which of them comes first, second and so on, each of them once. */
  ghost predicate IsOrder(o: seq<nat>, n: nat) {
    && |o| == n && (forall a :: 0 <= a < n ==> o[a] < n) && (forall i :: 0 <= i < n ==> i in o)
    && forall a, b :: 0 <= a < b < n ==> o[a] != o[b]
  }

  function InOrder<T>(s: seq<T>, o: seq<nat>): seq<T>
    requires forall a :: 0 <= a < |o| ==> o[a] < |s|
  {
    seq(|o|, a requires 0 <= a < |o| => s[o[a]])
  }

  /** As they stand. */
  function Standing(n: nat): (o: seq<nat>)
    ensures IsOrder(o, n)
  {
    var o := seq(n, a requires 0 <= a < n => a);
    assert forall i :: 0 <= i < n ==> i in o by {
      forall i | 0 <= i < n ensures i in o {
        assert o[i] == i;
      }
    }
    o
  }

  lemma StandingOrder<T>(s: seq<T>)
    ensures InOrder(s, Standing(|s|)) == s
  {
  }

  /** Last things first. */
  function Reversed(n: nat): (o: seq<nat>)
    ensures IsOrder(o, n)
    ensures forall a :: 0 <= a < n ==> o[a] == n - 1 - a
  {
    var o := seq(n, a requires 0 <= a < n => n - 1 - a);
    assert forall i :: 0 <= i < n ==> i in o by {
      forall i | 0 <= i < n ensures i in o {
        assert o[n - 1 - i] == i;
      }
    }
    o
  }

  /** A place in a list, as a place among the things as they stand. */
  function Restored(p: Option<Place>, o: seq<nat>): Option<Place>
    requires p.Some? ==> p.value.group < |o|
  {
    if p.None? then None else Some(Place(o[p.value.group], p.value.item))
  }

  /** The first candidate that matches, whatever its rank. */
  function First(ranks: seq<Option<Rank>>): (first: Option<nat>)
    ensures first.None? <==> forall i :: 0 <= i < |ranks| ==> ranks[i].None?
    ensures first.Some? ==> first.value < |ranks| && ranks[first.value].Some?
    ensures first.Some? ==> forall j :: 0 <= j < first.value ==> ranks[j].None?
  {
    if ranks == [] then None
    else if ranks[0].Some? then Some(0)
    else
      var rest := First(ranks[1..]);
      assert forall i :: 0 < i < |ranks| ==> ranks[i] == ranks[1..][i - 1];
      if rest.None? then None else Some(rest.value + 1)
  }

  /** A first candidate that a later one outranks is not the one with precedence. */
  lemma FirstLoses(ranks: seq<Option<Rank>>, i: nat, j: nat)
    requires i < j < |ranks| && ranks[i].Some? && ranks[j].Some? && Outranks(ranks[j].value, ranks[i].value)
    requires forall k :: 0 <= k < i ==> ranks[k].None?
    ensures First(ranks) == Some(i) && Select(ranks) != Some(i)
  {
    var first := First(ranks);
    assert first.Some? && !(first.value < i) && !(i < first.value);
  }
}

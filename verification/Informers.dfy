/** The shared informer factory: one informer per type, started once. Its methods hold a lock, so
    each is one step. */
module Informers {

  import opened Wrappers

  /** An informer, with the number of times it was run. */
  class Informer {
    const kind: string
    const resync: int
    var runs: nat

    constructor (kind: string, resync: int)
      ensures this.kind == kind && this.resync == resync && runs == 0
    {
      this.kind, this.resync, runs := kind, resync, 0;
    }

    method Run()
      modifies this
      ensures runs == old(runs) + 1
    {
      runs := runs + 1;
    }
  }

  datatype SharedInformerOption =
    | WithCustomResyncConfig(resync: map<string, int>)
    | WithTweakListOptions(tweak: string)
    | WithNamespace(namespace: string)

  datatype Settings = Settings(namespace: string, tweak: Option<string>, customResync: map<string, int>)

  /** Options apply in order, so a later one wins, type by type for resync periods. */
  function ApplyOption(s: Settings, o: SharedInformerOption): Settings {
    match o
    case WithCustomResyncConfig(m) => s.(customResync := s.customResync + m)
    case WithTweakListOptions(t) => s.(tweak := Some(t))
    case WithNamespace(n) => s.(namespace := n)
  }

  function ApplyOptions(s: Settings, options: seq<SharedInformerOption>): Settings {
    if options == [] then s
    else ApplyOption(ApplyOptions(s, options[..|options| - 1]), options[|options| - 1])
  }

  predicate GivesResync(o: SharedInformerOption, kind: string) {
    o.WithCustomResyncConfig? && kind in o.resync
  }

  /** The custom resync period of a type, if any. */
  function CustomResync(s: Settings, kind: string): Option<int> {
    if kind in s.customResync then Some(s.customResync[kind]) else None
  }

  lemma OptionGivesOrKeeps(s: Settings, o: SharedInformerOption, kind: string)
    ensures CustomResync(ApplyOption(s, o), kind) ==
              if GivesResync(o, kind) then Some(o.resync[kind]) else CustomResync(s, kind)
  {
  }

  /** Options that do not name a type leave its resync period alone. */
  lemma {:induction false} UnnamedKeepsResync(s: Settings, options: seq<SharedInformerOption>, kind: string)
    requires forall o :: o in options ==> !GivesResync(o, kind)
    ensures CustomResync(ApplyOptions(s, options), kind) == CustomResync(s, kind)
    decreases |options|
  {
    if options != [] {
      var front, last := options[..|options| - 1], options[|options| - 1];
      UnnamedKeepsResync(s, front, kind);
      OptionGivesOrKeeps(ApplyOptions(s, front), last, kind);
    }
  }

  /** A type's resync period is the one of the last option that names the type. */
  lemma {:induction false} LastResyncWins(
      s: Settings, before: seq<SharedInformerOption>, o: SharedInformerOption, after: seq<SharedInformerOption>,
      kind: string)
    requires GivesResync(o, kind) && forall later :: later in after ==> !GivesResync(later, kind)
    ensures CustomResync(ApplyOptions(s, before + [o] + after), kind) == Some(o.resync[kind])
    decreases |after|
  {
    var options := before + [o] + after;
    var front, last := options[..|options| - 1], options[|options| - 1];
    OptionGivesOrKeeps(ApplyOptions(s, front), last, kind);
    if after == [] {
      assert last == o;
    } else {
      var fewer := after[..|after| - 1];
      assert last == after[|after| - 1] && front == before + [o] + fewer;
      LastResyncWins(s, before, o, fewer, kind);
    }
  }

  lemma ApplyLast(s: Settings, front: seq<SharedInformerOption>, o: SharedInformerOption)
    ensures ApplyOptions(s, front + [o]) == ApplyOption(ApplyOptions(s, front), o)
  {
    assert (front + [o])[..|front|] == front;
  }

  /** The namespace and the list filter are those of the last option that sets them; every option sets
      one thing and leaves the others alone. */
  lemma {:induction false} LastNamespaceWins(
      s: Settings, before: seq<SharedInformerOption>, n: string, after: seq<SharedInformerOption>)
    requires forall o :: o in after ==> !o.WithNamespace?
    ensures ApplyOptions(s, before + [WithNamespace(n)] + after).namespace == n
    decreases |after|
  {
    if after == [] {
      ApplyLast(s, before, WithNamespace(n));
      assert before + [WithNamespace(n)] + [] == before + [WithNamespace(n)];
    } else {
      var front, last := before + [WithNamespace(n)] + after[..|after| - 1], after[|after| - 1];
      LastNamespaceWins(s, before, n, after[..|after| - 1]);
      ApplyLast(s, front, last);
      assert before + [WithNamespace(n)] + after == front + [last];
    }
  }

  lemma {:induction false} LastTweakWins(
      s: Settings, before: seq<SharedInformerOption>, t: string, after: seq<SharedInformerOption>)
    requires forall o :: o in after ==> !o.WithTweakListOptions?
    ensures ApplyOptions(s, before + [WithTweakListOptions(t)] + after).tweak == Some(t)
    decreases |after|
  {
    if after == [] {
      ApplyLast(s, before, WithTweakListOptions(t));
      assert before + [WithTweakListOptions(t)] + [] == before + [WithTweakListOptions(t)];
    } else {
      var front, last := before + [WithTweakListOptions(t)] + after[..|after| - 1], after[|after| - 1];
      LastTweakWins(s, before, t, after[..|after| - 1]);
      ApplyLast(s, front, last);
      assert before + [WithTweakListOptions(t)] + after == front + [last];
    }
  }

  lemma {:induction false} UnsetKeepsSettings(s: Settings, options: seq<SharedInformerOption>)
    ensures (forall o :: o in options ==> !o.WithNamespace?) ==> ApplyOptions(s, options).namespace == s.namespace
    ensures (forall o :: o in options ==> !o.WithTweakListOptions?) ==> ApplyOptions(s, options).tweak == s.tweak
    decreases |options|
  {
    if options != [] {
      UnsetKeepsSettings(s, options[..|options| - 1]);
      assert options[|options| - 1] in options;
    }
  }

  class SharedInformerFactory {
    const defaultResync: int
    var settings: Settings
    var informers: map<string, Informer>
    var startedInformers: map<string, bool>
    /** Every answer `InformerFor` has given. */
    ghost var answers: seq<(string, Informer)>
    /** The types an informer was built for, in order. */
    ghost var built: seq<string>

    predicate Started(kind: string)
      reads this`startedInformers
    {
      kind in startedInformers && startedInformers[kind]
    }

    /** What holds after any sequence of calls: at most one informer per type was ever built, it
        alone was ever handed out for the type, and it has run once if started and never otherwise. */
    ghost predicate Valid()
      reads this, informers.Values
    {
      && RunOnce()
      && (forall i :: 0 <= i < |answers| ==> answers[i].0 in informers && informers[answers[i].0] == answers[i].1)
      && (forall k :: k in informers <==> k in built)
      && (forall i, j :: 0 <= i < j < |built| ==> built[i] != built[j])
    }

    ghost predicate RunOnce()
      reads this`informers, this`startedInformers, informers.Values
    {
      && (forall k :: Started(k) ==> k in informers)
      && (forall k :: k in informers ==> informers[k].kind == k && informers[k].runs == if Started(k) then 1 else 0)
    }

    constructor (defaultResync: int, options: seq<SharedInformerOption>)
      ensures Valid() && this.defaultResync == defaultResync
      ensures settings == ApplyOptions(Settings("", None, map[]), options)
      ensures informers == map[] && answers == [] && forall k :: !Started(k)
    {
      this.defaultResync := defaultResync;
      settings := Settings("", None, map[]);
      informers, startedInformers := map[], map[];
      answers, built := [], [];
      new;
      for n := 0 to |options|
        invariant settings == ApplyOptions(Settings("", None, map[]), options[..n])
        invariant informers == map[] && startedInformers == map[] && answers == [] && built == []
      {
        assert options[..n + 1][..n] == options[..n];
        settings := ApplyOption(settings, options[n]);
      }
      assert options[..|options|] == options;
    }

    /** `InformerFor`: the informer already there, or else a new one whose resync period is settled now. */
    method InformerFor(kind: string) returns (informer: Informer)
      requires Valid()
      modifies this`informers, this`answers, this`built
      ensures Valid() && answers == old(answers) + [(kind, informer)]
      ensures kind in old(informers) ==>
                informer == old(informers)[kind] && informers == old(informers) && built == old(built)
      ensures kind !in old(informers) ==>
                && fresh(informer) && informers == old(informers)[kind := informer] && built == old(built) + [kind]
                && informer.resync ==
                     if kind in settings.customResync then settings.customResync[kind] else defaultResync
    {
      if kind in informers {
        informer := informers[kind];
      } else {
        var resyncPeriod := defaultResync;
        if kind in settings.customResync {
          resyncPeriod := settings.customResync[kind];
        }
        informer := new Informer(kind, resyncPeriod);
        informers := informers[kind := informer];
        built := built + [kind];
      }
      answers := answers + [(kind, informer)];
    }

    /** `Start`: afterwards every built informer is running; the ones that already were are not run again. */
    method Start()
      requires Valid()
      modifies this`startedInformers, informers.Values
      ensures Valid() && forall k :: k in informers ==> Started(k) && informers[k].runs == 1
      ensures forall k :: k in informers && old(Started(k)) ==> unchanged(informers[k])
    {
      var rest := informers.Keys;
      while rest != {}
        invariant rest <= informers.Keys
        invariant forall k :: Started(k) ==> k in informers
        invariant forall k :: k in informers && k !in rest ==> Started(k) && informers[k].runs == 1
        invariant forall k :: k in rest ==> Started(k) == old(Started(k)) && informers[k].runs == old(informers[k].runs)
        invariant forall k :: k in informers && old(Started(k)) ==> unchanged(informers[k])
      {
        var kind :| kind in rest;
        if !Started(kind) {
          informers[kind].Run();
          startedInformers := startedInformers[kind := true];
        }
        rest := rest - {kind};
      }
    }

    /** `WaitForCacheSync` reports on the started informers and no others; `synced` is what waiting
        for a type's informer answers. */
    method WaitForCacheSync(synced: string -> bool) returns (res: map<string, bool>)
      requires Valid()
      ensures forall k :: k in res <==> Started(k)
      ensures forall k :: k in res ==> res[k] == synced(k)
    {
      res := map[];
      var rest := informers.Keys;
      while rest != {}
        invariant rest <= informers.Keys
        invariant forall k :: k in res <==> k in informers && k !in rest && Started(k)
        invariant forall k :: k in res ==> res[k] == synced(k)
      {
        var kind :| kind in rest;
        if Started(kind) {
          res := res[kind := synced(kind)];
        }
        rest := rest - {kind};
      }
    }
  }
}

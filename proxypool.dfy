/**
 * The proxy liveness pool of support/proxypool/proxypool.go: an alive store
 * kept in a fixed-length buffer up to a logical last index, a candidate
 * store of proxies that failed a probe, and the sweep that demotes,
 * promotes, ages and evicts. The lock, the timer and the HTTP probe are
 * outside the model: the probe is a function parameter and `rand.Intn` is
 * a caller-supplied number.
 */
module ProxyPool {
  import opened Wrappers
  import opened SwapRemoval

  /** A parsed proxy address (`*url.URL`); "" stands for the nil slots of a fresh buffer. */
  type Url = string

  /** What `url.Parse` returned; the parser itself is not part of this model. */
  datatype Parsed = Parsed(url: Url) | Malformed(reason: string)

  datatype PoolError =
    | ParseError(reason: string)  // the parser's own error, returned as is
    | URLInvalid                  // ErrURLInvalid: the probe of a new proxy failed
    | NoValid                     // ErrNoValid: nothing is alive

  /** A proxy that failed a probe, with the number of failed sweeps since. */
  datatype Candidate = Candidate(v: Url, pTimes: int)

  const InitialCapacity: nat := 32
  const DefaultMaxCheckTimes: int := 10

  /** Every candidate's counter lies in 0 .. max + 1. */
  ghost predicate Bounded(cs: seq<Candidate>, max: int) {
    forall c <- cs :: 0 <= c.pTimes <= max + 1
  }

  // ---------------------------------------------------------------------
  // Classification of one sweep, as functions of the probed state
  // ---------------------------------------------------------------------

  function Fails(probe: Url -> bool): Url -> bool {
    (u: Url) => !probe(u)
  }

  /** A candidate whose probe passes goes back to the alive store. */
  function Revives(probe: Url -> bool): Candidate -> bool {
    (c: Candidate) => probe(c.v)
  }

  /** A candidate leaves the store when it revives or has failed more than `max` sweeps. */
  function Leaves(probe: Url -> bool, max: int): Candidate -> bool {
    (c: Candidate) => probe(c.v) || c.pTimes > max
  }

  function Stays(probe: Url -> bool, max: int): Candidate -> bool {
    (c: Candidate) => !probe(c.v) && c.pTimes <= max
  }

  /** One sweep's effect on a candidate that is not dropped: one more failure counted. */
  function Age(c: Candidate, probe: Url -> bool, max: int): Candidate {
    if Stays(probe, max)(c) then c.(pTimes := c.pTimes + 1) else c
  }

  /** The candidate store after the classify phase has counted the failures. */
  function Aged(cs: seq<Candidate>, probe: Url -> bool, max: int): (r: seq<Candidate>)
    ensures |r| == |cs|
    decreases |cs|
  {
    if cs == [] then [] else Aged(DropLast(cs), probe, max) + [Age(Last(cs), probe, max)]
  }

  /** Aging ages each candidate on its own, in place. */
  lemma {:induction false} AgedAt(cs: seq<Candidate>, probe: Url -> bool, max: int)
    ensures forall i :: 0 <= i < |cs| ==> Aged(cs, probe, max)[i] == Age(cs[i], probe, max)
    decreases |cs|
  {
    if cs != [] {
      AgedAt(DropLast(cs), probe, max);
    }
  }

  /** Aging keeps every counter within 0 .. max + 1: only counters of at most `max` grow. */
  lemma AgedBounded(cs: seq<Candidate>, probe: Url -> bool, max: int)
    requires Bounded(cs, max)
    ensures Bounded(Aged(cs, probe, max), max)
  {
    AgedAt(cs, probe, max);
    var r := Aged(cs, probe, max);
    forall c | c in r
      ensures 0 <= c.pTimes <= max + 1
    {
      var i :| 0 <= i < |r| && r[i] == c;
      assert cs[i] in cs;
    }
  }

  function Urls(cs: seq<Candidate>): (r: seq<Url>)
    ensures |r| == |cs|
    decreases |cs|
  {
    if cs == [] then [] else Urls(DropLast(cs)) + [Last(cs).v]
  }

  /** Demoted proxies enter the candidate store with no failure counted. */
  function Fresh(us: seq<Url>): (r: seq<Candidate>)
    ensures |r| == |us|
    decreases |us|
  {
    if us == [] then [] else Fresh(DropLast(us)) + [Candidate(Last(us), 0)]
  }

  lemma AgedSnoc(cs: seq<Candidate>, x: Candidate, probe: Url -> bool, max: int)
    ensures Aged(cs + [x], probe, max) == Aged(cs, probe, max) + [Age(x, probe, max)]
  {
    assert DropLast(cs + [x]) == cs;
  }

  lemma UrlsSnoc(cs: seq<Candidate>, x: Candidate)
    ensures Urls(cs + [x]) == Urls(cs) + [x.v]
  {
    assert DropLast(cs + [x]) == cs;
  }

  lemma FreshSnoc(us: seq<Url>, x: Url)
    ensures Fresh(us + [x]) == Fresh(us) + [Candidate(x, 0)]
  {
    assert DropLast(us + [x]) == us;
  }

  /**
   * The candidates appended while the alive entries at `idxs` are
   * swap-removed, largest index first (the companion of `RemoveAll`).
   */
  function DemotedFrom(s: seq<Url>, idxs: seq<int>): (r: seq<Candidate>)
    requires Increasing(idxs) && InRange(idxs, |s|)
    ensures |r| == |idxs|
    decreases |idxs|
  {
    if idxs == [] then []
    else [Candidate(s[Last(idxs)], 0)] + DemotedFrom(SwapRemove(s, Last(idxs)), DropLast(idxs))
  }

  /**
   * The second loop of the classify phase, over the candidate store `cs`:
   * the reviving proxies, the positions to drop, and the store with one
   * more failure counted for every candidate that stays.
   */
  method Triage(cs: seq<Candidate>, probe: Url -> bool, max: int)
    returns (alive: seq<Url>, drop: seq<int>, aged: seq<Candidate>)
    ensures alive == Urls(Filter(cs, Revives(probe)))
    ensures drop == IndicesWhere(cs, Leaves(probe, max))
    ensures aged == Aged(cs, probe, max)
  {
    alive, drop, aged := [], [], [];
    for j := 0 to |cs|
      invariant aged == Aged(cs[..j], probe, max)
      invariant alive == Urls(Filter(cs[..j], Revives(probe)))
      invariant drop == IndicesWhere(cs[..j], Leaves(probe, max))
    {
      ghost var prefix := cs[..j];
      var itm := cs[j];
      if probe(itm.v) {
        alive := alive + [itm.v];
        drop := drop + [j];
        aged := aged + [itm];
      } else if itm.pTimes > max {
        drop := drop + [j];
        aged := aged + [itm];
      } else {
        aged := aged + [itm.(pTimes := itm.pTimes + 1)];
      }
      assert cs[..j + 1] == prefix + [itm];
      assert alive == Urls(Filter(prefix + [itm], Revives(probe))) by {
        RevivedStep(prefix, itm, probe);
      }
      assert drop == IndicesWhere(prefix + [itm], Leaves(probe, max)) by {
        LeavingStep(prefix, itm, probe, max);
      }
      assert aged == Aged(prefix + [itm], probe, max) by {
        AgedSnoc(prefix, itm, probe, max);
      }
    }
    assert cs[..|cs|] == cs;
  }

  /** What one more candidate adds to the reviving proxies of the classify phase. */
  lemma RevivedStep(prefix: seq<Candidate>, x: Candidate, probe: Url -> bool)
    ensures Urls(Filter(prefix + [x], Revives(probe)))
         == Urls(Filter(prefix, Revives(probe))) + (if probe(x.v) then [x.v] else [])
  {
    var f := Filter(prefix, Revives(probe));
    FilterSnoc(prefix, x, Revives(probe));
    if probe(x.v) {
      assert Filter(prefix + [x], Revives(probe)) == f + [x];
      UrlsSnoc(f, x);
    } else {
      assert Filter(prefix + [x], Revives(probe)) == f;
    }
  }

  /** What one more candidate adds to the positions to drop. */
  lemma LeavingStep(prefix: seq<Candidate>, x: Candidate, probe: Url -> bool, max: int)
    ensures IndicesWhere(prefix + [x], Leaves(probe, max))
         == IndicesWhere(prefix, Leaves(probe, max)) + (if probe(x.v) || x.pTimes > max then [|prefix|] else [])
  {
    IndicesWhereSnoc(prefix, x, Leaves(probe, max));
    assert Leaves(probe, max)(x) == (probe(x.v) || x.pTimes > max);
  }

  // ---------------------------------------------------------------------
  // The pool
  // ---------------------------------------------------------------------

  class Pool {
    /** Slots 0 .. idxLast hold the alive proxies; the rest is spare capacity. */
    var alives: array<Url>
    var idxLast: int
    var candidates: seq<Candidate>
    const maxCheckTimes: int

    ghost predicate Valid()
      reads this
    {
      && alives.Length > 0
      && -1 <= idxLast < alives.Length
      && maxCheckTimes >= 1
      && Bounded(candidates, maxCheckTimes)
    }

    /** The alive store: the buffer up to the logical last index. */
    ghost function Alive(): (s: seq<Url>)
      reads this, alives
      requires Valid()
      ensures |s| == idxLast + 1
    {
      alives[..idxLast + 1]
    }

    /** `New`: a configured bound below 1 falls back to 10; the buffer starts with 32 empty slots. */
    constructor (configured: int)
      ensures Valid() && fresh(alives)
      ensures alives.Length == InitialCapacity && idxLast == -1 && candidates == []
      ensures maxCheckTimes == (if configured < 1 then DefaultMaxCheckTimes else configured)
    {
      maxCheckTimes := if configured < 1 then DefaultMaxCheckTimes else configured;
      alives := new Url[InitialCapacity];
      idxLast := -1;
      candidates := [];
    }

    /**
     * `add`, with its growth guard checking the slot about to be written:
     * the buffer doubles when that slot is past its end.
     */
    method Insert(v: Url)
      requires Valid()
      modifies this, alives
      ensures Valid()
      ensures Alive() == old(Alive()) + [v]
      ensures candidates == old(candidates)
      ensures alives.Length
        == if old(idxLast) + 1 >= old(alives.Length) then 2 * old(alives.Length) else old(alives.Length)
      ensures alives == old(alives) || fresh(alives)
    {
      if idxLast + 1 >= alives.Length {
        var grown := new Url[alives.Length * 2];
        forall j | 0 <= j < alives.Length {
          grown[j] := alives[j];
        }
        assert grown[..idxLast + 1] == alives[..idxLast + 1];
        alives := grown;
      }
      idxLast := idxLast + 1;
      alives[idxLast] := v;
      assert Alive() == old(Alive()) + [v];
    }

    /** `Add`: the parse error or ErrURLInvalid leave the pool as it was; otherwise the proxy is appended. */
    method Add(parsed: Parsed, probe: Url -> bool) returns (err: Option<PoolError>)
      requires Valid()
      modifies this, alives
      ensures Valid()
      ensures candidates == old(candidates)
      ensures parsed.Malformed? ==> err == Some(ParseError(parsed.reason))
      ensures parsed.Parsed? && !probe(parsed.url) ==> err == Some(URLInvalid)
      ensures err.Some? ==> alives == old(alives) && idxLast == old(idxLast) && unchanged(alives)
      ensures parsed.Parsed? && probe(parsed.url) ==> err == None && Alive() == old(Alive()) + [parsed.url]
    {
      if parsed.Malformed? {
        return Some(ParseError(parsed.reason));
      }
      if !probe(parsed.url) {
        return Some(URLInvalid);
      }
      Insert(parsed.url);
      return None;
    }

    /** `Get`: ErrNoValid exactly when nothing is alive; otherwise the alive entry at `pick mod n`. */
    method Get(pick: nat) returns (r: Result<Url, PoolError>)
      requires Valid()
      ensures r.Failure? <==> Alive() == []
      ensures r.Failure? ==> r.error == NoValid
      ensures r.Success? ==> r.value in Alive() && r.value == Alive()[pick % |Alive()|]
    {
      var n := idxLast + 1;
      if n < 1 {
        return Failure(NoValid);
      }
      return Success(alives[pick % n]);
    }

    /** `All`: a copy of the alive store. */
    method All() returns (items: seq<Url>)
      requires Valid()
      ensures items == Alive()
    {
      var n := idxLast + 1;
      if n < 1 {
        return [];
      }
      var copied := new Url[n];
      for i := 0 to n
        invariant forall j :: 0 <= j < i ==> copied[j] == alives[j]
      {
        copied[i] := alives[i];
      }
      items := copied[..];
    }

    /**
     * The classify phase of a sweep: record the failing alive slots, the
     * reviving candidates and the candidates to drop, and count one more
     * failure for every candidate that stays.
     */
    method Classify(probe: Url -> bool) returns (dead: seq<int>, alive: seq<Url>, drop: seq<int>)
      requires Valid()
      modifies this`candidates
      ensures Valid() && Alive() == old(Alive())
      ensures dead == IndicesWhere(Alive(), Fails(probe))
      ensures alive == Urls(Filter(old(candidates), Revives(probe)))
      ensures drop == IndicesWhere(old(candidates), Leaves(probe, maxCheckTimes))
      ensures candidates == Aged(old(candidates), probe, maxCheckTimes)
    {
      dead := Failing(probe);
      var aged;
      alive, drop, aged := Triage(candidates, probe, maxCheckTimes);
      AgedBounded(candidates, probe, maxCheckTimes);
      candidates := aged;
    }

    /** The first loop of the classify phase: the alive slots whose probe fails, in ascending order. */
    method Failing(probe: Url -> bool) returns (dead: seq<int>)
      requires Valid()
      ensures dead == IndicesWhere(Alive(), Fails(probe))
    {
      dead := [];
      var i := 0;
      while i < idxLast + 1
        invariant 0 <= i <= idxLast + 1
        invariant dead == IndicesWhere(alives[..i], Fails(probe))
      {
        assert alives[..i + 1] == alives[..i] + [alives[i]];
        IndicesWhereSnoc(alives[..i], alives[i], Fails(probe));
        if !probe(alives[i]) {
          dead := dead + [i];
        }
        i := i + 1;
      }
      assert alives[..i] == Alive();
    }
    /**
     * The apply phase of a sweep: demote the recorded alive slots and drop
     * the recorded candidates, each batch by swap-with-last from the
     * largest recorded index down, and re-add the reviving proxies.
     */
    method Apply(dead: seq<int>, alive: seq<Url>, drop: seq<int>)
      requires Valid()
      requires Increasing(dead) && InRange(dead, idxLast + 1)
      requires Increasing(drop) && InRange(drop, |candidates|)
      modifies this, alives
      ensures Valid()
      ensures Alive() == RemoveAll(old(Alive()), dead) + alive
      ensures candidates == RemoveAll(old(candidates) + DemotedFrom(old(Alive()), dead), drop)
    {
      Demote(dead);
      Promote(alive);
      Evict(drop);
    }

    /** The demotion batch: each recorded alive slot moves to the candidates with a zero counter. */
    method Demote(dead: seq<int>)
      requires Valid()
      requires Increasing(dead) && InRange(dead, idxLast + 1)
      modifies this, alives
      ensures Valid() && alives == old(alives)
      ensures Alive() == RemoveAll(old(Alive()), dead)
      ensures candidates == old(candidates) + DemotedFrom(old(Alive()), dead)
    {
      ghost var live0, cands0 := Alive(), candidates;
      var todo := dead;
      while todo != []
        invariant Valid() && alives == old(alives)
        invariant Increasing(todo) && InRange(todo, idxLast + 1)
        invariant RemoveAll(Alive(), todo) == RemoveAll(live0, dead)
        invariant candidates + DemotedFrom(Alive(), todo) == cands0 + DemotedFrom(live0, dead)
        decreases |todo|
      {
        ghost var live, cands := Alive(), candidates;
        DemoteStep(live, todo);
        DemoteAccount(live, cands, todo);
        DemoteSlot(Last(todo));
        todo := DropLast(todo);
      }
    }

    /** Moves alive slot `i` to the candidates and fills it from the last alive slot. */
    method DemoteSlot(i: int)
      requires Valid() && 0 <= i <= idxLast
      modifies this, alives
      ensures Valid() && alives == old(alives)
      ensures Alive() == SwapRemove(old(Alive()), i)
      ensures candidates == old(candidates) + [Candidate(old(Alive())[i], 0)]
    {
      candidates := candidates + [Candidate(alives[i], 0)];
      if i != idxLast {
        alives[i] := alives[idxLast];
      }
      idxLast := idxLast - 1;
      assert Alive() == SwapRemove(old(Alive()), i);
    }

    /** The promotion batch: each reviving proxy is re-added to the alive store. */
    method Promote(alive: seq<Url>)
      requires Valid()
      modifies this, alives
      ensures Valid()
      ensures Alive() == old(Alive()) + alive
      ensures candidates == old(candidates)
    {
      for k := 0 to |alive|
        invariant Valid()
        invariant alives == old(alives) || fresh(alives)
        invariant Alive() == old(Alive()) + alive[..k]
        invariant candidates == old(candidates)
      {
        Insert(alive[k]);
        assert alive[..k + 1] == alive[..k] + [alive[k]];
      }
      assert alive[..|alive|] == alive;
    }

    /** The eviction batch: each recorded candidate is removed by swap-with-last. */
    method Evict(drop: seq<int>)
      requires Valid()
      requires Increasing(drop) && InRange(drop, |candidates|)
      modifies this`candidates
      ensures Valid()
      ensures candidates == RemoveAll(old(candidates), drop)
    {
      ghost var cands0 := candidates;
      var todo := drop;
      while todo != []
        invariant Valid()
        invariant Increasing(todo) && InRange(todo, |candidates|)
        invariant RemoveAll(candidates, todo) == RemoveAll(cands0, drop)
        decreases |todo|
      {
        var i := Last(todo);
        ghost var before := candidates;
        if i != |candidates| - 1 {
          candidates := candidates[i := candidates[|candidates| - 1]];
        }
        candidates := candidates[..|candidates| - 1];
        assert candidates == SwapRemove(before, i);
        todo := DropLast(todo);
      }
    }

    /** One liveness sweep: classify, then apply when anything changed. */
    method Sweep(probe: Url -> bool)
      requires Valid()
      modifies this, alives
      ensures Valid()
      ensures multiset(Alive())
        == multiset(Filter(old(Alive()), probe)) + multiset(Urls(Filter(old(candidates), Revives(probe))))
      ensures multiset(candidates)
        == multiset(Aged(Filter(old(candidates), Stays(probe, maxCheckTimes)), probe, maxCheckTimes))
         + multiset(Fresh(Filter(old(Alive()), Fails(probe))))
    {
      ghost var live0, cands0 := Alive(), candidates;
      var dead, alive, drop := Classify(probe);
      if |dead| > 0 || |alive| > 0 || |drop| > 0 {
        Apply(dead, alive, drop);
      }
      ghost var live1, cands1 := Alive(), candidates;
      SweepAccounting(live0, cands0, live1, cands1, probe, maxCheckTimes);
    }
  }

  /** The two accounting lemmas, for the stores a sweep leaves. */
  lemma SweepAccounting(live: seq<Url>, cands: seq<Candidate>, live1: seq<Url>, cands1: seq<Candidate>,
                        probe: Url -> bool, max: int)
    requires live1 == SweptAlive(live, cands, probe)
    requires cands1 == SweptCandidates(live, cands, probe, max)
    ensures multiset(live1) == multiset(Filter(live, probe)) + multiset(Urls(Filter(cands, Revives(probe))))
    ensures multiset(cands1)
      == multiset(Aged(Filter(cands, Stays(probe, max)), probe, max)) + multiset(Fresh(Filter(live, Fails(probe))))
  {
    AliveAccounting(live, cands, probe);
    CandidateAccounting(live, cands, probe, max);
  }

  /** The alive store after a sweep, as the two phases compute it. */
  ghost function SweptAlive(live: seq<Url>, cands: seq<Candidate>, probe: Url -> bool): seq<Url> {
    RemoveAll(live, IndicesWhere(live, Fails(probe))) + Urls(Filter(cands, Revives(probe)))
  }

  /** The candidate store after a sweep, as the two phases compute it. */
  ghost function SweptCandidates(live: seq<Url>, cands: seq<Candidate>, probe: Url -> bool, max: int): seq<Candidate> {
    RemoveAll(Aged(cands, probe, max) + DemotedFrom(live, IndicesWhere(live, Fails(probe))),
              IndicesWhere(cands, Leaves(probe, max)))
  }

  // ---------------------------------------------------------------------
  // What a sweep does to the two stores
  // ---------------------------------------------------------------------

  /** One demotion: the largest recorded slot goes first. */
  lemma DemoteStep(s: seq<Url>, ds: seq<int>)
    requires Increasing(ds) && InRange(ds, |s|) && ds != []
    ensures Increasing(DropLast(ds)) && InRange(DropLast(ds), |s| - 1) && InRange(DropLast(ds), Last(ds))
    ensures RemoveAll(s, ds) == RemoveAll(SwapRemove(s, Last(ds)), DropLast(ds))
    ensures DemotedFrom(s, ds) == [Candidate(s[Last(ds)], 0)] + DemotedFrom(SwapRemove(s, Last(ds)), DropLast(ds))
  {
    var rest := DropLast(ds);
    forall k | 0 <= k < |rest|
      ensures 0 <= rest[k] < Last(ds) <= |s| - 1
    {
      assert rest[k] == ds[k] && ds[k] < ds[|ds| - 1];
    }
  }

  /** One slot demoted: the candidate appended and those still to come make up the whole batch. */
  lemma DemoteAccount(s: seq<Url>, cs: seq<Candidate>, ds: seq<int>)
    requires Increasing(ds) && InRange(ds, |s|) && ds != []
    ensures Increasing(DropLast(ds)) && InRange(DropLast(ds), |s| - 1)
    ensures cs + [Candidate(s[Last(ds)], 0)] + DemotedFrom(SwapRemove(s, Last(ds)), DropLast(ds))
         == cs + DemotedFrom(s, ds)
  {
    DemoteStep(s, ds);
  }

  /** The demoted candidates are the removed alive entries, each with a zero counter. */
  lemma {:induction false} DemotedFromMultiset(s: seq<Url>, idxs: seq<int>)
    requires Increasing(idxs) && InRange(idxs, |s|)
    ensures multiset(DemotedFrom(s, idxs)) == multiset(Fresh(Pick(s, idxs)))
    decreases |idxs|
  {
    if idxs != [] {
      DemoteStep(s, idxs);
      DemotedFromMultiset(SwapRemove(s, Last(idxs)), DropLast(idxs));
      DemotedFromLast(s, idxs);
    }
  }

  /** The largest index demoted first: its candidate, then those of the others, are the picked entries. */
  lemma DemotedFromLast(s: seq<Url>, idxs: seq<int>)
    requires Increasing(idxs) && InRange(idxs, |s|) && idxs != []
    requires Increasing(DropLast(idxs)) && InRange(DropLast(idxs), |s| - 1) && InRange(DropLast(idxs), Last(idxs))
    requires var t, rest := SwapRemove(s, Last(idxs)), DropLast(idxs);
      multiset(DemotedFrom(t, rest)) == multiset(Fresh(Pick(t, rest)))
    ensures multiset(DemotedFrom(s, idxs)) == multiset(Fresh(Pick(s, idxs)))
  {
    var d, rest := Last(idxs), DropLast(idxs);
    var t := SwapRemove(s, d);
    var c := Candidate(s[d], 0);
    var demoted, picked := DemotedFrom(t, rest), Fresh(Pick(t, rest));
    DemoteStep(s, idxs);
    PickedLast(s, idxs);
    MultisetMoveFront(c, demoted, picked);
  }

  lemma MultisetMoveFront<T>(c: T, a: seq<T>, b: seq<T>)
    requires multiset(a) == multiset(b)
    ensures multiset([c] + a) == multiset(b + [c])
  {
    assert multiset([c] + a) == multiset([c]) + multiset(a);
    assert multiset(b + [c]) == multiset(b) + multiset([c]);
  }

  /** The entry at the last index, picked after slots below it, follows those picked from the swap-removed store. */
  lemma PickedLast(s: seq<Url>, idxs: seq<int>)
    requires idxs != [] && 0 <= Last(idxs) < |s| && InRange(DropLast(idxs), Last(idxs))
    ensures Fresh(Pick(s, idxs))
         == Fresh(Pick(SwapRemove(s, Last(idxs)), DropLast(idxs))) + [Candidate(s[Last(idxs)], 0)]
  {
    var d, rest := Last(idxs), DropLast(idxs);
    assert idxs == rest + [d];
    PickBelowUntouched(s, d, rest);
    PickSnoc(s, rest, d);
    FreshSnoc(Pick(s, rest), s[d]);
  }

  /** Aging splits the candidates into the dropped ones, untouched, and the aged survivors. */
  lemma {:induction false} AgedSplit(cs: seq<Candidate>, probe: Url -> bool, max: int)
    ensures multiset(Aged(cs, probe, max))
      == multiset(Filter(cs, Leaves(probe, max))) + multiset(Aged(Filter(cs, Stays(probe, max)), probe, max))
    decreases |cs|
  {
    if cs != [] {
      var rest, x := DropLast(cs), Last(cs);
      assert cs == rest + [x];
      AgedSplit(rest, probe, max);
      if Stays(probe, max)(x) {
        AgedSplitStays(rest, x, probe, max);
      } else {
        AgedSplitLeaves(rest, x, probe, max);
      }
    }
  }

  /** The step of `AgedSplit` for a last candidate that stays. */
  lemma AgedSplitStays(rest: seq<Candidate>, x: Candidate, probe: Url -> bool, max: int)
    requires Stays(probe, max)(x)
    requires multiset(Aged(rest, probe, max))
      == multiset(Filter(rest, Leaves(probe, max))) + multiset(Aged(Filter(rest, Stays(probe, max)), probe, max))
    ensures multiset(Aged(rest + [x], probe, max))
      == multiset(Filter(rest + [x], Leaves(probe, max))) + multiset(Aged(Filter(rest + [x], Stays(probe, max)), probe, max))
  {
    var kept := Filter(rest, Stays(probe, max));
    assert Filter(rest + [x], Leaves(probe, max)) == Filter(rest, Leaves(probe, max)) by {
      FilterSnoc(rest, x, Leaves(probe, max));
    }
    assert Filter(rest + [x], Stays(probe, max)) == kept + [x] by {
      FilterSnoc(rest, x, Stays(probe, max));
    }
    assert Aged(kept + [x], probe, max) == Aged(kept, probe, max) + [Age(x, probe, max)] by {
      AgedSnoc(kept, x, probe, max);
    }
    assert Aged(rest + [x], probe, max) == Aged(rest, probe, max) + [Age(x, probe, max)] by {
      AgedSnoc(rest, x, probe, max);
    }
  }

  /** The step of `AgedSplit` for a last candidate that leaves. */
  lemma AgedSplitLeaves(rest: seq<Candidate>, x: Candidate, probe: Url -> bool, max: int)
    requires !Stays(probe, max)(x)
    requires multiset(Aged(rest, probe, max))
      == multiset(Filter(rest, Leaves(probe, max))) + multiset(Aged(Filter(rest, Stays(probe, max)), probe, max))
    ensures multiset(Aged(rest + [x], probe, max))
      == multiset(Filter(rest + [x], Leaves(probe, max))) + multiset(Aged(Filter(rest + [x], Stays(probe, max)), probe, max))
  {
    assert Leaves(probe, max)(x);
    assert Filter(rest + [x], Leaves(probe, max)) == Filter(rest, Leaves(probe, max)) + [x] by {
      FilterSnoc(rest, x, Leaves(probe, max));
    }
    assert Filter(rest + [x], Stays(probe, max)) == Filter(rest, Stays(probe, max)) by {
      FilterSnoc(rest, x, Stays(probe, max));
    }
    assert Aged(rest + [x], probe, max) == Aged(rest, probe, max) + [x] by {
      AgedSnoc(rest, x, probe, max);
    }
  }

  /** After a sweep the alive store holds the alive proxies that passed and the candidates that revived. */
  lemma AliveAccounting(live: seq<Url>, cands: seq<Candidate>, probe: Url -> bool)
    ensures multiset(SweptAlive(live, cands, probe))
      == multiset(Filter(live, probe)) + multiset(Urls(Filter(cands, Revives(probe))))
  {
    var dead := IndicesWhere(live, Fails(probe));
    var kept := RemoveAll(live, dead);
    RemoveAllMultiset(live, dead);
    assert multiset(kept) + multiset(Pick(live, dead)) == multiset(live);
    PickIndicesWhere(live, live, Fails(probe));
    assert Pick(live, dead) == Filter(live, Fails(probe));
    FilterPartition(live, Fails(probe), probe);
    MultisetCancel(multiset(kept), multiset(Filter(live, Fails(probe))), multiset(Filter(live, probe)));
  }

  /**
   * After a sweep the candidate store holds the aged candidates that stayed
   * and the demoted alive proxies with a zero counter; evicted and revived
   * candidates are gone.
   */
  lemma CandidateAccounting(live: seq<Url>, cands: seq<Candidate>, probe: Url -> bool, max: int)
    ensures multiset(SweptCandidates(live, cands, probe, max))
      == multiset(Aged(Filter(cands, Stays(probe, max)), probe, max))
       + multiset(Fresh(Filter(live, Fails(probe))))
  {
    var dead := IndicesWhere(live, Fails(probe));
    var drop := IndicesWhere(cands, Leaves(probe, max));
    var aged := Aged(cands, probe, max);
    var demoted := DemotedFrom(live, dead);
    var t := aged + demoted;
    var left := multiset(Filter(cands, Leaves(probe, max)));
    var stayed := multiset(Aged(Filter(cands, Stays(probe, max)), probe, max));
    RemoveAllMultiset(t, drop);
    AgedAt(cands, probe, max);
    PickIndicesWhere(cands, t, Leaves(probe, max));
    assert multiset(RemoveAll(t, drop)) + left == multiset(t);
    AgedSplit(cands, probe, max);
    assert multiset(aged) == left + stayed;
    DemotedFromMultiset(live, dead);
    PickIndicesWhere(live, live, Fails(probe));
    assert multiset(demoted) == multiset(Fresh(Filter(live, Fails(probe))));
    assert multiset(t) == (stayed + multiset(demoted)) + left;
    MultisetCancel(multiset(RemoveAll(t, drop)), left, stayed + multiset(demoted));
  }

  /** A candidate state after `n` sweeps in which its probe fails. */
  function AgeTimes(c: Candidate, probe: Url -> bool, max: int, n: nat): Candidate
    decreases n
  {
    if n == 0 then c else AgeTimes(Age(c, probe, max), probe, max, n - 1)
  }

  /**
   * Eviction: a candidate whose probe keeps failing stays through the sweeps
   * that bring its counter to max + 1 and is dropped by the next one.
   */
  lemma {:induction false} EvictedAfterRepeatedFailures(c: Candidate, probe: Url -> bool, max: int, k: nat)
    requires !probe(c.v) && 0 <= c.pTimes <= max + 1
    requires k <= max + 1 - c.pTimes
    ensures AgeTimes(c, probe, max, k) == c.(pTimes := c.pTimes + k)
    ensures Leaves(probe, max)(AgeTimes(c, probe, max, k)) <==> k == max + 1 - c.pTimes
    decreases k
  {
    if k > 0 {
      EvictedAfterRepeatedFailures(Age(c, probe, max), probe, max, k - 1);
    }
  }

  // ---------------------------------------------------------------------
  // The apply phase and `add` as written in proxypool.go
  // ---------------------------------------------------------------------

  /**
   * The demotion loop as written: iteration `i` moves buffer slot `i` to the
   * candidates and fills it from the last slot, whatever index was recorded
   * in position `i` of the failing list; only the number of failures counts.
   */
  function DemoteAsWritten(buf: seq<Url>, last: int, cands: seq<Candidate>, i: nat, count: nat)
    : (r: (seq<Url>, int, seq<Candidate>))
    requires count <= |buf| && i <= count
    requires i < count ==> 0 <= last < |buf| && count - i <= last + 1
    ensures |r.0| == |buf| && r.1 == last - (count - i)
    decreases count - i
  {
    if i == count then (buf, last, cands)
    else
      var cands' := cands + [Candidate(buf[i], 0)];
      var buf' := if i != last then buf[i := buf[last]] else buf;
      DemoteAsWritten(buf', last - 1, cands', i + 1, count)
  }

  /**
   * The drop loop as written: iteration `i` overwrites position `i` with the
   * last candidate (unless `i` equals the current length) and shrinks the
   * list, whatever index was recorded; `None` is the index-out-of-range
   * panic once `i` passes the shrinking length.
   */
  function DropAsWritten(cands: seq<Candidate>, i: nat, count: nat): (r: Option<seq<Candidate>>)
    requires i <= count
    ensures r.Some? ==> |r.value| == |cands| - (count - i)
    decreases count - i
  {
    if i == count then Some(cands)
    else if |cands| == 0 || i > |cands| then None
    else if i == |cands| then DropAsWritten(DropLast(cands), i + 1, count)
    else DropAsWritten(DropLast(cands[i := Last(cands)]), i + 1, count)
  }

  /**
   * `add` as written: the buffer grows only when `last >= len`, then slot
   * `last + 1` is written; `None` is the index-out-of-range panic.
   */
  function AddAsWritten(buf: seq<Url>, last: int, v: Url): (r: Option<(seq<Url>, int)>)
    requires -1 <= last
  {
    var buf' := if last >= |buf| then buf + seq(|buf|, _ => "") else buf;
    if last + 1 < |buf'| then Some((buf'[last + 1 := v], last + 1)) else None
  }

  /** A probe under which only "a" is alive. */
  function OnlyA(u: Url): bool { u == "a" }

  /** With "a", "b", "c" alive and only "a" passing, the failing slots recorded are 1 and 2. */
  lemma FailingSlotsExample()
    ensures IndicesWhere(["a", "b", "c"], Fails(OnlyA)) == [1, 2]
  {
    assert OnlyA("a") && !OnlyA("b") && !OnlyA("c");
    IndicesWhereSnoc([], "a", Fails(OnlyA));
    IndicesWhereSnoc(["a"], "b", Fails(OnlyA));
    IndicesWhereSnoc(["a", "b"], "c", Fails(OnlyA));
    assert ["a"] == [] + ["a"] && ["a", "b"] == ["a"] + ["b"] && ["a", "b", "c"] == ["a", "b"] + ["c"];
  }

  /**
   * On that input the loop as written demotes the healthy "a" and "b" and
   * keeps the failing "c" alive.
   */
  lemma DemoteAsWrittenDemotesHealthy()
    ensures var (buf, last, cands) := DemoteAsWritten(["a", "b", "c"], 2, [], 0, 2);
            buf[..last + 1] == ["c"] && cands == [Candidate("a", 0), Candidate("b", 0)]
  {
    var s := ["a", "b", "c"];
    var t := ["c", "b", "c"];
    assert s[0 := s[2]] == t;
    assert [] + [Candidate(s[0], 0)] == [Candidate("a", 0)];
    assert DemoteAsWritten(s, 2, [], 0, 2) == DemoteAsWritten(t, 1, [Candidate("a", 0)], 1, 2);
    assert [Candidate("a", 0)] + [Candidate(t[1], 0)] == [Candidate("a", 0), Candidate("b", 0)];
    assert DemoteAsWritten(t, 1, [Candidate("a", 0)], 1, 2)
        == DemoteAsWritten(t, 0, [Candidate("a", 0), Candidate("b", 0)], 2, 2);
    assert t[..1] == ["c"];
  }

  /** On the same input the corrected demotion keeps "a" and demotes "c" and "b". */
  lemma DemoteCorrectedKeepsHealthy()
    ensures RemoveAll(["a", "b", "c"], [1, 2]) == ["a"]
    ensures DemotedFrom(["a", "b", "c"], [1, 2]) == [Candidate("c", 0), Candidate("b", 0)]
  {
    var s := ["a", "b", "c"];
    assert Last([1, 2]) == 2 && DropLast([1, 2]) == [1];
    assert Last([1]) == 1 && DropLast([1]) == [];
    assert SwapRemove(s, 2) == ["a", "b"];
    assert SwapRemove(["a", "b"], 1) == ["a"];
    assert RemoveAll(s, [1, 2]) == RemoveAll(["a", "b"], [1]);
    assert DemotedFrom(s, [1, 2]) == [Candidate("c", 0)] + DemotedFrom(["a", "b"], [1]);
    assert DemotedFrom(["a", "b"], [1]) == [Candidate("b", 0)] + DemotedFrom(["a"], []);
  }

  /** With a failing candidate "x" first and a reviving "y" second, only position 1 is recorded. */
  lemma DropSlotsExample()
    ensures IndicesWhere([Candidate("x", 0), Candidate("y", 3)], Leaves(OnlyY, 10)) == [1]
  {
    var cs := [Candidate("x", 0), Candidate("y", 3)];
    assert !OnlyY("x") && OnlyY("y");
    assert !Leaves(OnlyY, 10)(Candidate("x", 0)) && Leaves(OnlyY, 10)(Candidate("y", 3));
    IndicesWhereSnoc([], Candidate("x", 0), Leaves(OnlyY, 10));
    IndicesWhereSnoc([Candidate("x", 0)], Candidate("y", 3), Leaves(OnlyY, 10));
    assert [Candidate("x", 0)] == [] + [Candidate("x", 0)] && cs == [Candidate("x", 0)] + [Candidate("y", 3)];
  }

  /**
   * On that input the classify phase ages "x" in place, so the apply phase
   * sees "x" with counter 1. The loop as written then drops position 0: the
   * failing "x" is lost while the revived "y" stays a candidate too; the
   * corrected eviction keeps the aged "x".
   */
  lemma DropAsWrittenDropsWrongCandidate()
    ensures var aged := Aged([Candidate("x", 0), Candidate("y", 3)], OnlyY, 10);
            && aged == [Candidate("x", 1), Candidate("y", 3)]
            && DropAsWritten(aged, 0, 1) == Some([Candidate("y", 3)])
            && RemoveAll(aged, [1]) == [Candidate("x", 1)]
  {
    var cs := [Candidate("x", 0), Candidate("y", 3)];
    assert !OnlyY("x") && OnlyY("y");
    AgedAt(cs, OnlyY, 10);
    var aged := Aged(cs, OnlyY, 10);
    assert aged[0] == Candidate("x", 1) && aged[1] == Candidate("y", 3);
    assert aged == [Candidate("x", 1), Candidate("y", 3)];
    assert aged[0 := Last(aged)] == [Candidate("y", 3), Candidate("y", 3)];
    assert DropLast([Candidate("y", 3), Candidate("y", 3)]) == [Candidate("y", 3)];
    assert DropAsWritten(aged, 0, 1) == DropAsWritten([Candidate("y", 3)], 1, 1);
    assert Last([1]) == 1 && DropLast([1]) == [];
    assert SwapRemove(aged, 1) == [Candidate("x", 1)];
    assert RemoveAll(aged, [1]) == RemoveAll(SwapRemove(aged, 1), []);
  }

  /** A probe under which only "y" is alive. */
  function OnlyY(u: Url): bool { u == "y" }

  /**
   * Three candidates dropped in one sweep with nothing demoted: the third
   * iteration indexes position 2 of a one-element list and panics; the
   * corrected eviction empties the store.
   */
  lemma DropAsWrittenPanics()
    ensures var cs := [Candidate("x", 0), Candidate("y", 0), Candidate("z", 0)];
            DropAsWritten(cs, 0, 3) == None && RemoveAll(cs, [0, 1, 2]) == []
  {
    var cs := [Candidate("x", 0), Candidate("y", 0), Candidate("z", 0)];
    assert cs[0 := Last(cs)] == [Candidate("z", 0), Candidate("y", 0), Candidate("z", 0)];
    assert DropAsWritten(cs, 0, 3) == DropAsWritten([Candidate("z", 0), Candidate("y", 0)], 1, 3);
    assert DropAsWritten([Candidate("z", 0), Candidate("y", 0)], 1, 3) == DropAsWritten([Candidate("z", 0)], 2, 3);
    assert Last([0, 1, 2]) == 2 && DropLast([0, 1, 2]) == [0, 1];
    assert Last([0, 1]) == 1 && DropLast([0, 1]) == [0];
    assert Last([0]) == 0 && DropLast([0]) == [];
  }

  /**
   * Within the pool's invariant the written growth guard never fires, so
   * the add fails exactly when the buffer is full.
   */
  lemma AddAsWrittenPanicsWhenFull(buf: seq<Url>, v: Url)
    ensures forall last | -1 <= last < |buf| :: AddAsWritten(buf, last, v).None? <==> last == |buf| - 1
  {
  }

  /** The 33rd proxy added to a new pool overflows the 32-slot buffer as written; `Insert` grows it. */
  method ThirtyThirdAdd(pool: Pool, v: Url)
    requires pool.Valid() && pool.alives.Length == InitialCapacity && pool.idxLast == InitialCapacity - 1
    modifies pool, pool.alives
    ensures AddAsWritten(old(pool.alives[..]), InitialCapacity - 1, v) == None
    ensures pool.Valid() && pool.idxLast == InitialCapacity && pool.alives.Length == 2 * InitialCapacity
    ensures pool.Alive() == old(pool.Alive()) + [v]
  {
    pool.Insert(v);
  }
}

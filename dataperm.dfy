/**
 * Data-permission appliers of support/dataperm/dataperm.go. An applier
 * narrows a database query for one domain; the appliers a request may use
 * are kept in a holder, keyed by domain, that travels in the request
 * context. A query is modelled by the list of conditions it has gathered,
 * and a custom applier by its domain and the way it changes a query.
 */
module DataPerm {
  import opened Wrappers
  import opened SwapRemoval

  /** The conditions a `*gorm.DB` query has gathered. */
  datatype Query = Query(conditions: seq<string>)

  /** `Applier`: the no-op applier, or a custom one for a domain. */
  datatype Applier = Nop | Custom(domain: string, scope: Query -> Query)

  /** `Applier.Domain`: "nop" for the no-op applier. */
  function Domain(a: Applier): (r: string)
    ensures a.Nop? ==> r == "nop"
    ensures a.Custom? ==> r == a.domain
  {
    match a
    case Nop => "nop"
    case Custom(domain, _) => domain
  }

  /** `Applier.Apply`: the no-op applier returns the query unchanged. */
  function Apply(a: Applier, db: Query): (r: Query)
    ensures a.Nop? ==> r == db
  {
    match a
    case Nop => db
    case Custom(_, scope) => scope(db)
  }

  /** `holder`: the appliers of a request, by domain. */
  class Holder {
    var m: map<string, Applier>

    /** `newHolder`: no appliers yet. */
    constructor ()
      ensures m == map[]
    {
      m := map[];
    }

    /** `holder.Set`: `applier` becomes the entry for `domain`. */
    method Set(domain: string, applier: Applier)
      modifies this
      ensures m == old(m)[domain := applier]
      ensures Get(domain) == Some(applier)
      ensures forall d :: d != domain ==> Get(d) == old(Get(d))
    {
      m := m[domain := applier];
    }

    /** `holder.Get`: the entry for `domain`, if there is one. */
    function Get(domain: string): (r: Option<Applier>)
      reads this
      ensures r.Some? <==> domain in m
      ensures r.Some? ==> r.value == m[domain]
    {
      if domain in m then Some(m[domain]) else None
    }
  }

  /** The request context, as far as the holder goes: it carries one or not. */
  datatype Context = Context(holder: Option<Holder>)

  /** `Wrap`: the holder's applier for `domain`, or the no-op applier when there is no holder or no entry. */
  function Wrap(ctx: Context, domain: string): (r: Applier)
    reads if ctx.holder.Some? then {ctx.holder.value} else {}
    ensures ctx.holder.None? ==> r == Nop
    ensures ctx.holder.Some? && ctx.holder.value.Get(domain).None? ==> r == Nop
    ensures ctx.holder.Some? && ctx.holder.value.Get(domain).Some? ==> r == ctx.holder.value.Get(domain).value
  {
    match ctx.holder
    case None => Nop
    case Some(h) =>
      match h.Get(domain)
      case None => Nop
      case Some(a) => a
  }

  /** The holder's table after setting each applier of `s` in turn. */
  function Table(s: seq<Applier>): map<string, Applier>
  {
    if s == [] then map[] else Table(DropLast(s))[Domain(Last(s)) := Last(s)]
  }

  /** The last applier of `s` whose domain is `d`, if there is one. */
  function Latest(s: seq<Applier>, d: string): Option<Applier>
  {
    if s == [] then None
    else if Domain(Last(s)) == d then Some(Last(s))
    else Latest(DropLast(s), d)
  }

  /**
   * `Latest` is what its name says: absent exactly when no applier has the
   * domain, and otherwise an applier with the domain after which none has it.
   */
  lemma {:induction false} LatestIsLast(s: seq<Applier>, d: string)
    ensures Latest(s, d).None? <==> forall i :: 0 <= i < |s| ==> Domain(s[i]) != d
    ensures Latest(s, d).Some? ==>
      exists i :: 0 <= i < |s| && s[i] == Latest(s, d).value && Domain(s[i]) == d
        && forall j :: i < j < |s| ==> Domain(s[j]) != d
  {
    if s != [] {
      var p := DropLast(s);
      LatestIsLast(p, d);
      assert forall i :: 0 <= i < |p| ==> p[i] == s[i];
      if Domain(Last(s)) == d {
        assert s[|s| - 1] == Latest(s, d).value;
      } else if Latest(p, d).Some? {
        var i :| 0 <= i < |p| && p[i] == Latest(p, d).value && Domain(p[i]) == d
          && forall j :: i < j < |p| ==> Domain(p[j]) != d;
        assert s[i] == Latest(s, d).value;
      }
    }
  }

  /** The table holds, for each domain, the last applier with that domain. */
  lemma {:induction false} TableHoldsLatest(s: seq<Applier>, d: string)
    ensures d in Table(s) <==> Latest(s, d).Some?
    ensures d in Table(s) ==> Table(s)[d] == Latest(s, d).value
  {
    if s != [] {
      TableHoldsLatest(DropLast(s), d);
    }
  }

  /** `SetAppliers`: a fresh holder filled with the appliers in order, carried by the new context. */
  method SetAppliers(ctx: Context, appliers: seq<Applier>) returns (r: Context)
    ensures r.holder.Some? && fresh(r.holder.value)
    ensures r.holder.value.m == Table(appliers)
  {
    var h := new Holder();
    for i := 0 to |appliers|
      invariant h.m == Table(appliers[..i])
    {
      assert DropLast(appliers[..i + 1]) == appliers[..i];
      h.Set(Domain(appliers[i]), appliers[i]);
    }
    assert appliers[..|appliers|] == appliers;
    r := Context(Some(h));
  }

  /**
   * After `SetAppliers`, wrapping for a domain gives the last applier in the
   * list with that domain, and the no-op applier when none has it.
   */
  lemma WrapAfterSetAppliers(h: Holder, appliers: seq<Applier>, d: string)
    requires h.m == Table(appliers)
    ensures Latest(appliers, d).Some? ==> Wrap(Context(Some(h)), d) == Latest(appliers, d).value
    ensures Latest(appliers, d).None? ==> Wrap(Context(Some(h)), d) == Nop
  {
    TableHoldsLatest(appliers, d);
  }

  /** A later applier for a domain replaces an earlier one, and other domains keep theirs. */
  lemma LaterOverrides(a: Applier, b: Applier, c: Applier)
    requires Domain(a) == Domain(b) && Domain(c) != Domain(a)
    ensures var t := Table([a, c, b]);
      t.Keys == {Domain(a), Domain(c)} && t[Domain(a)] == b && t[Domain(c)] == c
  {
    assert DropLast([a, c, b]) == [a, c];
    assert DropLast([a, c]) == [a];
    assert DropLast([a]) == [];
    assert Table([a]) == map[Domain(a) := a];
    assert Table([a, c]) == map[Domain(a) := a, Domain(c) := c];
  }
}

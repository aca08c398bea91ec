/** The daily summary counters of the Home screen, computed from the two lists
    the remote service returns for the selected day. */
module Home {
  import Js

  datatype Counters = Counters(totalNotas: nat, totalPaletes: nat, itensConferidos: nat, totalAvarias: nat)

  const Zero := Counters(0, 0, 0, 0)

  /** `isAvaria`: `'sim'`, `true` or `1`, compared strictly. */
  predicate IsAvaria(v: Js.Value)
  {
    v == Js.Str("sim") || v == Js.Bool(true) || v == Js.Num(1)
  }

  predicate NotaConferida(n: Js.Value)
  {
    Js.TrimmedNonEmpty(Js.Prop(n, "conferidoPor"))
  }

  predicate PaleteConferido(p: Js.Value)
  {
    Js.Prop(p, "conferido") == Js.Str("sim") || Js.Prop(p, "conferido") == Js.Bool(true)
  }

  predicate NotaComAvaria(n: Js.Value)
  {
    IsAvaria(Js.Prop(n, "avaria")) || (Js.Prop(n, "avarias").Arr? && |Js.Prop(n, "avarias").items| > 0)
  }

  predicate PaleteComAvaria(p: Js.Value)
  {
    IsAvaria(Js.Prop(p, "avaria"))
  }

  /** `xs.filter(p).length`. */
  function CountWhere(xs: seq<Js.Value>, p: Js.Value -> bool): (c: nat)
    ensures c <= |xs|
  {
    if xs == [] then 0 else (if p(xs[0]) then 1 else 0) + CountWhere(xs[1..], p)
  }

  /** The count is additive over concatenation and counts a single element by the
      predicate, which determines it as the number of matching elements. */
  lemma {:induction false} CountWhereAppend(xs: seq<Js.Value>, ys: seq<Js.Value>, p: Js.Value -> bool)
    ensures CountWhere(xs + ys, p) == CountWhere(xs, p) + CountWhere(ys, p)
    ensures forall x :: CountWhere([x], p) == (if p(x) then 1 else 0)
  {
    if xs == [] {
      assert xs + ys == ys;
    } else {
      assert (xs + ys)[1..] == xs[1..] + ys;
      CountWhereAppend(xs[1..], ys, p);
    }
    forall x ensures CountWhere([x], p) == (if p(x) then 1 else 0) {
      assert [x][1..] == [];
    }
  }

  /** The count reaches the length exactly when every element matches. */
  lemma {:induction false} CountWhereAll(xs: seq<Js.Value>, p: Js.Value -> bool)
    ensures CountWhere(xs, p) == |xs| <==> forall i :: 0 <= i < |xs| ==> p(xs[i])
  {
    if xs != [] {
      CountWhereAll(xs[1..], p);
      if forall i :: 0 <= i < |xs| ==> p(xs[i]) {
        assert forall i :: 0 <= i < |xs[1..]| ==> p(xs[1..][i]) by {
          forall i | 0 <= i < |xs[1..]| ensures p(xs[1..][i]) { assert xs[1..][i] == xs[i + 1]; }
        }
      } else {
        var k :| 0 <= k < |xs| && !p(xs[k]);
        if k > 0 { assert xs[1..][k - 1] == xs[k]; }
      }
    }
  }

  predicate AllReadable(xs: seq<Js.Value>)
  {
    forall i :: 0 <= i < |xs| ==> Js.Readable(xs[i])
  }

  /** The outcome of the two list requests. */
  datatype Fetch = Loaded(notas: Js.Value, paletes: Js.Value) | Failed

  /** The four counters after `fetchResumoPorData` and its error handler. A failed
      request, or a `null` element (its filter throws a TypeError), resets all four to 0. */
  function Summary(f: Fetch): (c: Counters)
    ensures c.itensConferidos <= c.totalNotas + c.totalPaletes
    ensures c.totalAvarias <= c.totalNotas + c.totalPaletes
    ensures f.Failed? ==> c == Zero
  {
    match f
    case Failed => Zero
    case Loaded(nv, pv) =>
      var ns := Js.ArrayOrEmpty(nv);
      var ps := Js.ArrayOrEmpty(pv);
      if !AllReadable(ns) || !AllReadable(ps) then Zero
      else
        Counters(|ns|, |ps|,
                 CountWhere(ns, NotaConferida) + CountWhere(ps, PaleteConferido),
                 CountWhere(ns, NotaComAvaria) + CountWhere(ps, PaleteComAvaria))
  }

  /** `onRefresh`: the same fetch with no error handler. A failed request sets
      nothing; a `null` element throws after the two totals are set, so the other two
      counters keep their previous values. */
  function Refresh(prev: Counters, f: Fetch): Counters
  {
    match f
    case Failed => prev
    case Loaded(nv, pv) =>
      var ns := Js.ArrayOrEmpty(nv);
      var ps := Js.ArrayOrEmpty(pv);
      if !AllReadable(ns) || !AllReadable(ps) then
        prev.(totalNotas := |ns|, totalPaletes := |ps|)
      else Summary(f)
  }

  /** A pull-to-refresh agrees with the mount path exactly when the fetch succeeds on
      readable elements. Otherwise the mount path zeroes everything, while the refresh
      keeps the previous checked and damage counters, and after a failed request all
      four. */
  lemma RefreshVersusSummary(prev: Counters, f: Fetch)
    ensures f.Loaded? && AllReadable(Js.ArrayOrEmpty(f.notas)) && AllReadable(Js.ArrayOrEmpty(f.paletes)) ==>
              Refresh(prev, f) == Summary(f)
    ensures f.Failed? ==> Refresh(prev, f) == prev && Summary(f) == Zero
    ensures f.Loaded? && !(AllReadable(Js.ArrayOrEmpty(f.notas)) && AllReadable(Js.ArrayOrEmpty(f.paletes))) ==>
              && Summary(f) == Zero
              && Refresh(prev, f).totalNotas == |Js.ArrayOrEmpty(f.notas)|
              && Refresh(prev, f).totalPaletes == |Js.ArrayOrEmpty(f.paletes)|
              && Refresh(prev, f).itensConferidos == prev.itensConferidos
              && Refresh(prev, f).totalAvarias == prev.totalAvarias
  {
  }

  /** A response that is not an array counts as an empty list; otherwise the totals
      are the list lengths. */
  lemma SummaryTotals(nv: Js.Value, pv: Js.Value)
    requires AllReadable(Js.ArrayOrEmpty(nv)) && AllReadable(Js.ArrayOrEmpty(pv))
    ensures var c := Summary(Loaded(nv, pv));
            && c.totalNotas == (if nv.Arr? then |nv.items| else 0)
            && c.totalPaletes == (if pv.Arr? then |pv.items| else 0)
            && (!nv.Arr? && !pv.Arr? ==> c == Zero)
  {
  }

  /** Every item counts as checked exactly when every Nota names a checker and every
      Palete is marked `'sim'` or `true`. */
  lemma AllConferidos(nv: Js.Value, pv: Js.Value)
    requires nv.Arr? && pv.Arr? && AllReadable(nv.items) && AllReadable(pv.items)
    ensures var c := Summary(Loaded(nv, pv));
            c.itensConferidos == c.totalNotas + c.totalPaletes <==>
              (forall i :: 0 <= i < |nv.items| ==> NotaConferida(nv.items[i])) &&
              (forall i :: 0 <= i < |pv.items| ==> PaleteConferido(pv.items[i]))
  {
    CountWhereAll(nv.items, NotaConferida);
    CountWhereAll(pv.items, PaleteConferido);
  }
}

/** The detailed day summary screen (ResumoDoDia): which day it fetches, the
    sorted list of routes it offers as filters, the badges of each card, and the
    screen state its load and route-filter handlers maintain. */
module ResumoDoDia {
  import Text
  import Js
  import Api
  import OfflineSync
  import Records

  /* ------------------------------- dd/mm/yyyy -------------------------------- */

  /** The shape `^(\d{2})\/(\d{2})\/(\d{4})$`. */
  predicate BrShape(s: string)
  {
    && |s| == 10 && s[2] == '/' && s[5] == '/'
    && Text.AllDigits(s[0..2]) && Text.AllDigits(s[3..5]) && Text.AllDigits(s[6..10])
  }

  /** `brToISO`: `dd/mm/yyyy` becomes `yyyy-mm-dd`; anything else, the empty string
      included, gives `undefined`. */
  function BrToISO(br: Js.Option<string>): Js.Option<string>
  {
    match br
    case None => Js.None
    case Some(s) =>
      if s == "" || !BrShape(s) then Js.None
      else Js.Some(s[6..10] + "-" + s[3..5] + "-" + s[0..2])
  }

  /** `brToISO` accepts exactly the strings of the shape, and reorders their three fields. */
  lemma BrToISOFields(dd: string, mm: string, yyyy: string)
    requires |dd| == 2 && |mm| == 2 && |yyyy| == 4
    requires Text.AllDigits(dd) && Text.AllDigits(mm) && Text.AllDigits(yyyy)
    ensures BrToISO(Js.Some(dd + "/" + mm + "/" + yyyy)) == Js.Some(yyyy + "-" + mm + "-" + dd)
  {
    var s := dd + "/" + mm + "/" + yyyy;
    assert s[0..2] == dd && s[3..5] == mm && s[6..10] == yyyy;
  }

  lemma BrToISODefined(s: string)
    ensures BrToISO(Js.Some(s)).Some? <==> BrShape(s)
    ensures BrToISO(Js.Some(s)).Some? ==> |BrToISO(Js.Some(s)).value| == 10
  {
  }

  /** A date written `dd/mm/yyyy` from its day, month index and four-digit year converts to
      what `toISO` produces for the same date. */
  lemma {:induction false} BrToISOAgreesWithToISO(year: nat, monthIndex: nat, day: nat)
    requires 1000 <= year <= 9999 && monthIndex <= 11 && 1 <= day <= 31
    ensures BrToISO(Js.Some(Api.Pad2(Text.NatToString(day)) + "/" + Api.Pad2(Text.NatToString(monthIndex + 1))
                            + "/" + Text.NatToString(year)))
            == Js.Some(Api.ToISO(year, monthIndex, day))
  {
    Api.Pad2Number(day);
    Api.Pad2Number(monthIndex + 1);
    Text.FourDigits(year);
    BrToISOFields(Api.Pad2(Text.NatToString(day)), Api.Pad2(Text.NatToString(monthIndex + 1)), Text.NatToString(year));
  }

  /** `diaISO || brToISO(data)`, both route parameters taken as optional strings. */
  function DiaFetch(diaISO: Js.Option<string>, data: Js.Option<string>): (r: Js.Option<string>)
    ensures r.Some? ==> r.value != ""
    ensures r.None? <==> (diaISO.None? || diaISO.value == "") && BrToISO(data).None?
  {
    if diaISO.Some? && diaISO.value != "" then diaISO else BrToISO(data)
  }

  /* --------------------------------- routes ---------------------------------- */

  /** `typeof v?.numeroRota === "number"`, and the number. */
  function RouteOf(v: Js.Value): Js.Option<int>
  {
    match Js.OptProp(v, "numeroRota")
    case Num(n) => Js.Some(n)
    case _ => Js.None
  }

  /** The route numbers of a list of records. */
  function Routes(xs: seq<Js.Value>): set<int>
  {
    if xs == [] then {}
    else Routes(xs[..|xs| - 1]) + (match RouteOf(xs[|xs| - 1]) case Some(n) => {n} case None => {})
  }

  lemma {:induction false} RoutesMembers(xs: seq<Js.Value>, n: int)
    ensures n in Routes(xs) <==> exists i :: 0 <= i < |xs| && RouteOf(xs[i]) == Js.Some(n)
  {
    if xs != [] {
      var ys := xs[..|xs| - 1];
      RoutesMembers(ys, n);
      if exists i :: 0 <= i < |ys| && RouteOf(ys[i]) == Js.Some(n) {
        var i :| 0 <= i < |ys| && RouteOf(ys[i]) == Js.Some(n);
        assert xs[i] == ys[i];
      }
      if exists i :: 0 <= i < |xs| && RouteOf(xs[i]) == Js.Some(n) {
        var i :| 0 <= i < |xs| && RouteOf(xs[i]) == Js.Some(n);
        if i < |ys| { assert ys[i] == xs[i]; }
      }
    }
  }

  predicate Distinct(s: seq<int>)
  {
    forall i, j :: 0 <= i < j < |s| ==> s[i] != s[j]
  }

  predicate StrictlyIncreasing(s: seq<int>)
  {
    forall i, j :: 0 <= i < j < |s| ==> s[i] < s[j]
  }

  function InsertSorted(x: int, s: seq<int>): (r: seq<int>)
    requires StrictlyIncreasing(s) && x !in s
    ensures StrictlyIncreasing(r) && |r| == |s| + 1
    ensures forall y :: y in r <==> y == x || y in s
  {
    if s == [] then [x]
    else if x < s[0] then [x] + s
    else
      var t := InsertSorted(x, s[1..]);
      assert forall y :: y in t ==> s[0] < y;
      var r := [s[0]] + t;
      assert forall i, j :: 0 <= i < j < |r| ==> r[i] < r[j] by {
        forall i, j | 0 <= i < j < |r| ensures r[i] < r[j] {
          if i == 0 { assert r[j] == t[j - 1] && t[j - 1] in t; }
          else { assert r[i] == t[i - 1] && r[j] == t[j - 1]; }
        }
      }
      r
  }

  /** `Array.from(set).sort((a, b) => a - b)`: the elements, which are distinct, in
      ascending numeric order. */
  function SortAscending(s: seq<int>): (r: seq<int>)
    requires Distinct(s)
    ensures StrictlyIncreasing(r)
    ensures forall y :: y in r <==> y in s
  {
    if s == [] then []
    else
      var init := s[..|s| - 1];
      assert forall y :: y in init <==> exists i :: 0 <= i < |s| - 1 && s[i] == y;
      InsertSorted(s[|s| - 1], SortAscending(init))
  }

  /** The head of a non-empty strictly increasing list is its least element, and the
      tail holds the rest. */
  lemma HeadIsLeast(s: seq<int>)
    requires StrictlyIncreasing(s) && s != []
    ensures StrictlyIncreasing(s[1..])
    ensures forall x :: x in s <==> x == s[0] || x in s[1..]
    ensures forall x :: x in s ==> s[0] <= x
    ensures forall x :: x in s[1..] ==> s[0] < x
  {
    assert s == [s[0]] + s[1..];
  }

  lemma HeadIsElement(s: seq<int>)
    ensures s != [] ==> s[0] in s
  {
  }

  /** A strictly increasing list is determined by its elements: the route filters
      come out the same whatever order the records arrived in. */
  lemma {:induction false} StrictlyIncreasingUnique(a: seq<int>, b: seq<int>)
    requires StrictlyIncreasing(a) && StrictlyIncreasing(b)
    requires forall x :: x in a <==> x in b
    ensures a == b
  {
    if a != [] {
      assert a[0] in a;
      assert a[0] in b;
      HeadIsLeast(a);
      HeadIsLeast(b);
      assert b[0] in a;
      assert a[0] <= b[0] && b[0] <= a[0];
      assert forall x :: x in a[1..] <==> x in b[1..];
      StrictlyIncreasingUnique(a[1..], b[1..]);
      assert a == [a[0]] + a[1..] && b == [b[0]] + b[1..];
    } else {
      HeadIsElement(b);
    }
  }

  /** The `rotas` memo: the route numbers of the loaded Notas and Paletes, each once,
      ascending. */
  method Rotas(fullNotas: seq<Js.Value>, fullPaletes: seq<Js.Value>) returns (r: seq<int>)
    ensures StrictlyIncreasing(r)
    ensures forall n :: n in r <==> n in Routes(fullNotas) + Routes(fullPaletes)
  {
    var s: seq<int> := [];
    for i := 0 to |fullNotas|
      invariant Distinct(s)
      invariant forall n :: n in s <==> n in Routes(fullNotas[..i])
    {
      assert fullNotas[..i + 1][..i] == fullNotas[..i];
      match RouteOf(fullNotas[i]) {
        case Some(n) => if n !in s { s := s + [n]; }
        case None =>
      }
    }
    assert fullNotas[..|fullNotas|] == fullNotas;
    for j := 0 to |fullPaletes|
      invariant Distinct(s)
      invariant forall n :: n in s <==> n in Routes(fullNotas) + Routes(fullPaletes[..j])
    {
      assert fullPaletes[..j + 1][..j] == fullPaletes[..j];
      match RouteOf(fullPaletes[j]) {
        case Some(n) => if n !in s { s := s + [n]; }
        case None =>
      }
    }
    assert fullPaletes[..|fullPaletes|] == fullPaletes;
    r := SortAscending(s);
  }

  /* --------------------------------- badges ---------------------------------- */

  /** `(v || "").toString().toLowerCase() === "sim"`: the Avaria, Remontado and
      Conferido badges of the cards. */
  predicate SimBadge(v: Js.Value)
  {
    Text.ToLower(Js.ToString(Js.Or(v, Js.Str("")))) == "sim"
  }

  /** A string lights the badge exactly when it is `sim` in any letter case; a
      boolean, a number or a missing field never does. */
  lemma SimBadgeString(s: string)
    ensures SimBadge(Js.Str(s)) <==>
              |s| == 3 && (s[0] == 's' || s[0] == 'S') && (s[1] == 'i' || s[1] == 'I')
              && (s[2] == 'm' || s[2] == 'M')
    ensures !SimBadge(Js.Undefined) && !SimBadge(Js.Null)
    ensures forall b :: !SimBadge(Js.Bool(b))
  {
    if SimBadge(Js.Str(s)) {
      var l := Text.ToLower(s);
      assert |s| == 3;
      assert l[0] == 's' && l[1] == 'i' && l[2] == 'm';
      assert Text.LowerChar(s[0]) == 's' && Text.LowerChar(s[1]) == 'i' && Text.LowerChar(s[2]) == 'm';
    }
    if |s| == 3 && (s[0] == 's' || s[0] == 'S') && (s[1] == 'i' || s[1] == 'I') && (s[2] == 'm' || s[2] == 'M') {
      assert Text.ToLower(s) == "sim";
    }
  }

  /** The flags of the records this client stores offline light the badge exactly
      when they are `Sim`. */
  lemma SimBadgeOfStoredFlag(f: Records.SimNao)
    ensures SimBadge(Js.Str(Records.SimNaoText(f))) <==> f == Records.Sim
  {
    SimBadgeString(Records.SimNaoText(f));
  }

  /* --------------------------------- screen ---------------------------------- */

  /** What a pair of list requests resolved to; `message` is the rejection's, possibly empty. */
  datatype Fetched = Fetched(notas: Js.Value, paletes: Js.Value) | FetchFailed(message: string)

  /** The state of the screen. `fetches` counts the pairs of list requests issued. */
  class Screen {
    const diaFetch: Js.Option<string>
    var fullNotas: seq<Js.Value>
    var fullPaletes: seq<Js.Value>
    var notas: seq<Js.Value>
    var paletes: seq<Js.Value>
    var selectedRota: Js.Option<int>
    var loading: bool
    var errorMsg: string
    var offlineCount: OfflineSync.Count
    var offlineNotas: seq<Records.Nota>
    var offlinePaletes: seq<Records.Palete>
    var fetches: nat

    constructor (diaISO: Js.Option<string>, data: Js.Option<string>)
      ensures diaFetch == DiaFetch(diaISO, data)
      ensures fullNotas == [] && fullPaletes == [] && notas == [] && paletes == []
      ensures selectedRota == Js.None && !loading && errorMsg == ""
      ensures offlineCount == OfflineSync.Count(0, 0, 0) && offlineNotas == [] && offlinePaletes == []
      ensures fetches == 0
    {
      diaFetch := DiaFetch(diaISO, data);
      fullNotas, fullPaletes, notas, paletes := [], [], [], [];
      selectedRota := Js.None;
      loading, errorMsg := false, "";
      offlineCount := OfflineSync.Count(0, 0, 0);
      offlineNotas, offlinePaletes := [], [];
      fetches := 0;
    }

    /** `fetchOfflineData`: copies the queue's count and lists. The queue's readers never
        reject, so the error branch is never taken. */
    method FetchOfflineData(q: OfflineSync.OfflineQueue)
      modifies this
      ensures offlineCount == OfflineSync.OfflineCount(q.notas, q.paletes)
      ensures offlineNotas == OfflineSync.Listed(q.notas) && offlinePaletes == OfflineSync.Listed(q.paletes)
      ensures fullNotas == old(fullNotas) && fullPaletes == old(fullPaletes)
      ensures notas == old(notas) && paletes == old(paletes) && selectedRota == old(selectedRota)
      ensures loading == old(loading) && errorMsg == old(errorMsg) && fetches == old(fetches)
    {
      var c := q.GetOfflineCount();
      var ns := q.GetOfflineNotas();
      var ps := q.GetOfflinePaletes();
      offlineCount, offlineNotas, offlinePaletes := c, ns, ps;
    }

    /** `fetchAllOfDay`, given what the two requests resolve to. */
    method FetchAllOfDay(result: Fetched, q: OfflineSync.OfflineQueue)
      modifies this
      ensures diaFetch.None? ==>
                && fullNotas == [] && fullPaletes == [] && notas == [] && paletes == []
                && errorMsg == "Data inválida para busca"
                && selectedRota == old(selectedRota) && loading == old(loading)
                && fetches == old(fetches) && offlineCount == old(offlineCount)
                && offlineNotas == old(offlineNotas) && offlinePaletes == old(offlinePaletes)
      ensures diaFetch.Some? ==> !loading && fetches == old(fetches) + 1
      ensures diaFetch.Some? && result.Fetched? ==>
                && fullNotas == Js.ArrayOrEmpty(result.notas) && fullPaletes == Js.ArrayOrEmpty(result.paletes)
                && notas == fullNotas && paletes == fullPaletes
                && selectedRota == Js.None && errorMsg == ""
                && offlineCount == OfflineSync.OfflineCount(q.notas, q.paletes)
                && offlineNotas == OfflineSync.Listed(q.notas) && offlinePaletes == OfflineSync.Listed(q.paletes)
      ensures diaFetch.Some? && result.FetchFailed? ==>
                && fullNotas == [] && fullPaletes == [] && notas == [] && paletes == []
                && errorMsg == (if result.message != "" then result.message else "Falha ao carregar")
                && selectedRota == old(selectedRota) && offlineCount == old(offlineCount)
                && offlineNotas == old(offlineNotas) && offlinePaletes == old(offlinePaletes)
      ensures diaFetch.None? || result.FetchFailed? ==> !ShowsEmptyDay()
      ensures diaFetch.Some? && result.Fetched? ==>
                (ShowsEmptyDay() <==>
                   notas == [] && paletes == [] && OfflineSync.OfflineCount(q.notas, q.paletes).total == 0)
    {
      errorMsg := "";
      if diaFetch.None? {
        fullNotas, fullPaletes, notas, paletes := [], [], [], [];
        errorMsg := "Data inválida para busca";
        return;
      }
      loading := true;
      fetches := fetches + 1;
      match result {
        case Fetched(ns, ps) =>
          var arrN := Js.ArrayOrEmpty(ns);
          var arrP := Js.ArrayOrEmpty(ps);
          fullNotas, fullPaletes := arrN, arrP;
          notas, paletes := arrN, arrP;
          selectedRota := Js.None;
          FetchOfflineData(q);
        case FetchFailed(m) =>
          fullNotas, fullPaletes, notas, paletes := [], [], [], [];
          errorMsg := if m != "" then m else "Falha ao carregar";
      }
      loading := false;
    }

    /** `onSelectRota`: clearing the filter restores the day's full lists without a
        request; choosing a route shows what the filtered requests return. */
    method SelectRota(rota: Js.Option<int>, result: Fetched)
      modifies this
      ensures selectedRota == rota
      ensures fullNotas == old(fullNotas) && fullPaletes == old(fullPaletes)
      ensures offlineCount == old(offlineCount)
      ensures offlineNotas == old(offlineNotas) && offlinePaletes == old(offlinePaletes)
      ensures diaFetch.None? || rota.None? ==>
                loading == old(loading) && errorMsg == old(errorMsg) && fetches == old(fetches)
      ensures diaFetch.None? ==> notas == old(notas) && paletes == old(paletes)
      ensures diaFetch.Some? && rota.None? ==> notas == fullNotas && paletes == fullPaletes
      ensures diaFetch.Some? && rota.Some? ==> !loading && fetches == old(fetches) + 1
      ensures diaFetch.Some? && rota.Some? && result.Fetched? ==>
                notas == Js.ArrayOrEmpty(result.notas) && paletes == Js.ArrayOrEmpty(result.paletes)
                && errorMsg == ""
      ensures diaFetch.Some? && rota.Some? && result.FetchFailed? ==>
                && notas == [] && paletes == []
                && errorMsg == (if result.message != "" then result.message
                                else "Falha ao filtrar rota " + Text.IntToString(rota.value))
      ensures diaFetch.Some? && rota.Some? && result.FetchFailed? ==> !ShowsEmptyDay()
    {
      selectedRota := rota;
      if diaFetch.None? {
        return;
      }
      if rota.None? {
        notas, paletes := fullNotas, fullPaletes;
        return;
      }
      loading := true;
      errorMsg := "";
      fetches := fetches + 1;
      match result {
        case Fetched(ns, ps) =>
          notas, paletes := Js.ArrayOrEmpty(ns), Js.ArrayOrEmpty(ps);
        case FetchFailed(m) =>
          notas, paletes := [], [];
          errorMsg := if m != "" then m else "Falha ao filtrar rota " + Text.IntToString(rota.value);
      }
      loading := false;
    }

    /** The "Nenhum registro para este dia." line. */
    predicate ShowsEmptyDay()
      reads this
    {
      !loading && notas == [] && paletes == [] && offlineCount.total == 0 && errorMsg == ""
    }
  }
}

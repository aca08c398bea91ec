/** The pure decisions of the HTTP service layer: the query-string builder,
    the ISO date formatter, and how a response's status and body become a
    result or an error. The network calls themselves are not modelled:
    a response is given as its status, status text and body text. */
module Api {
  import Text
  import Js

  /* ------------------------------ query strings ------------------------------ */

  /** `qs` keeps an entry unless its value is `undefined`, `null` or `""`. */
  predicate KeepsParam(v: Js.Value)
  {
    !(v.Undefined? || v.Null? || v == Js.Str(""))
  }

  function KeptParams(params: seq<(string, Js.Value)>): seq<(string, Js.Value)>
  {
    if params == [] then []
    else (if KeepsParam(params[0].1) then [params[0]] else []) + KeptParams(params[1..])
  }

  /** The filter of `qs` drops exactly the blank entries, so `0` and `false` stay. */
  lemma {:induction false} KeptParamsMembers(params: seq<(string, Js.Value)>)
    ensures forall p :: p in KeptParams(params) <==> p in params && KeepsParam(p.1)
    ensures KeepsParam(Js.Num(0)) && KeepsParam(Js.Bool(false))
  {
    if params != [] {
      KeptParamsMembers(params[1..]);
      assert params == [params[0]] + params[1..];
    }
  }

  /** The filter keeps entry order: it distributes over concatenation. */
  lemma {:induction false} KeptParamsAppend(params: seq<(string, Js.Value)>, more: seq<(string, Js.Value)>)
    ensures KeptParams(params + more) == KeptParams(params) + KeptParams(more)
  {
    if params == [] {
      assert params + more == more;
    } else {
      KeptParamsAppend(params[1..], more);
      var head := if KeepsParam(params[0].1) then [params[0]] else [];
      assert (params + more)[0] == params[0];
      assert (params + more)[1..] == params[1..] + more;
      calc {
        KeptParams(params + more);
        head + KeptParams(params[1..] + more);
        head + (KeptParams(params[1..]) + KeptParams(more));
        (head + KeptParams(params[1..])) + KeptParams(more);
        KeptParams(params) + KeptParams(more);
      }
    }
  }

  /** `${enc(k)}=${enc(String(v))}`. */
  function Pair(entry: (string, Js.Value), enc: string -> string): string
  {
    enc(entry.0) + "=" + enc(Js.ToString(entry.1))
  }

  function Pairs(entries: seq<(string, Js.Value)>, enc: string -> string): (r: seq<string>)
    ensures |r| == |entries| && forall i :: 0 <= i < |entries| ==> r[i] == Pair(entries[i], enc)
  {
    seq(|entries|, i requires 0 <= i < |entries| => Pair(entries[i], enc))
  }

  /** `qs(params)`, with `encodeURIComponent` as the parameter `enc`. */
  function Qs(params: seq<(string, Js.Value)>, enc: string -> string): (r: string)
    ensures r == "" <==> KeptParams(params) == []
    ensures r != "" ==> r[0] == '?' && r[1..] == Text.Join(Pairs(KeptParams(params), enc), '&')
  {
    var pairs := Pairs(KeptParams(params), enc);
    var p := Text.Join(pairs, '&');
    assert pairs != [] ==> '=' in pairs[0];
    if p != "" then "?" + p else ""
  }

  /** When the encoder never emits `&` or `=` (as `encodeURIComponent` does not),
      the query string splits back into exactly the kept pairs, each into its
      encoded key and value. */
  lemma QsSplitsIntoPairs(params: seq<(string, Js.Value)>, enc: string -> string)
    requires forall s :: '&' !in enc(s) && '=' !in enc(s)
    requires KeptParams(params) != []
    ensures var kept := KeptParams(params);
            var r := Qs(params, enc);
            && Text.Split(r[1..], '&') == Pairs(kept, enc)
            && forall i :: 0 <= i < |kept| ==>
                 Text.Split(Text.Split(r[1..], '&')[i], '=') == [enc(kept[i].0), enc(Js.ToString(kept[i].1))]
  {
    var kept := KeptParams(params);
    var pairs := Pairs(kept, enc);
    forall i | 0 <= i < |pairs| ensures '&' !in pairs[i] {
      assert pairs[i] == enc(kept[i].0) + "=" + enc(Js.ToString(kept[i].1));
    }
    Text.SplitJoin(pairs, '&');
    forall i | 0 <= i < |kept|
      ensures Text.Split(pairs[i], '=') == [enc(kept[i].0), enc(Js.ToString(kept[i].1))]
    {
      var a, b := enc(kept[i].0), enc(Js.ToString(kept[i].1));
      assert pairs[i] == a + ['='] + b;
      Text.SplitField(a, '=', b);
      Text.SplitNoSep(b, '=');
    }
  }

  /* ---------------------------------- dates ---------------------------------- */

  /** `s.padStart(2, "0")`. */
  function Pad2(s: string): string
  {
    if |s| >= 2 then s else seq(2 - |s|, _ => '0') + s
  }

  /** A number from 1 to 99, padded, is two digits that read back as the number. */
  lemma Pad2Number(n: nat)
    requires 1 <= n <= 99
    ensures var s := Pad2(Text.NatToString(n));
            |s| == 2 && Text.AllDigits(s) && Text.ParseNat(s) == n
  {
    var s := Pad2(Text.NatToString(n));
    if n < 10 {
      assert s == ['0', Text.DigitChar(n)];
      assert s[..1] == ['0'];
      assert s[..1][..0] == [];
      assert Text.ParseNat(s[..1]) == 0;
    } else {
      assert Text.NatToString(n) == Text.NatToString(n / 10) + [Text.DigitChar(n % 10)];
      assert s[..1] == Text.NatToString(n / 10);
      Text.ParseNatToString(n / 10);
    }
  }

  /** `toISO` over the values of `getFullYear`, `getMonth` and `getDate`. */
  function ToISO(year: int, monthIndex: int, day: int): string
    requires 0 <= monthIndex <= 11 && 1 <= day <= 31
  {
    Text.IntToString(year) + "-" + Pad2(Text.NatToString(monthIndex + 1)) + "-" + Pad2(Text.NatToString(day))
  }

  /** `toISO` is `y-mm-dd`: the unpadded year, then the month (index + 1) and the day, each
      two digits; reading the three fields back gives the inputs, so distinct dates
      give distinct strings. */
  lemma ToISOFields(year: int, monthIndex: int, day: int)
    requires 0 <= monthIndex <= 11 && 1 <= day <= 31
    ensures var r := ToISO(year, monthIndex, day);
            && |r| >= 7 && r[|r| - 6] == '-' && r[|r| - 3] == '-'
            && r[..|r| - 6] == Text.IntToString(year)
            && Text.ParseInt(r[..|r| - 6]) == year
            && Text.AllDigits(r[|r| - 5..|r| - 3]) && Text.ParseNat(r[|r| - 5..|r| - 3]) == monthIndex + 1
            && Text.AllDigits(r[|r| - 2..]) && Text.ParseNat(r[|r| - 2..]) == day
  {
    var y := Text.IntToString(year);
    var m := Pad2(Text.NatToString(monthIndex + 1));
    var d := Pad2(Text.NatToString(day));
    Pad2Number(monthIndex + 1);
    Pad2Number(day);
    Text.ParseIntToString(year);
    var r := ToISO(year, monthIndex, day);
    assert r == y + "-" + m + "-" + d;
    assert r[..|r| - 6] == y;
    assert r[|r| - 5..|r| - 3] == m;
    assert r[|r| - 2..] == d;
  }

  /* -------------------------------- responses -------------------------------- */

  /** A fetch response: `ok` is a status in the 200-299 range (the Fetch standard's rule). */
  datatype Response = Response(status: int, statusText: string)
  {
    predicate Ok() { 200 <= status <= 299 }
  }

  datatype Outcome = Pass | Fail(message: string)

  /** `assertOk`. */
  function AssertOk(res: Response): (o: Outcome)
    ensures o.Fail? <==> !res.Ok()
  {
    if !res.Ok() then Fail("HTTP " + Text.IntToString(res.status) + ": " + res.statusText) else Pass
  }

  /** `assertOk`'s message names the status: it starts with `HTTP `, and the digits
      after it, up to the colon, read back as the status. */
  lemma AssertOkNamesStatus(res: Response)
    requires !res.Ok()
    ensures var m := AssertOk(res).message;
            var code := Text.IntToString(res.status);
            && m[..5] == "HTTP " && m[5..5 + |code|] == code
            && Text.ParseInt(m[5..5 + |code|]) == res.status
            && m[5 + |code|..5 + |code| + 2] == ": "
            && m[5 + |code| + 2..] == res.statusText
  {
    Text.ParseIntToString(res.status);
  }

  /** The error text of a failed create call: the body text, or
      `Erro <status>: <statusText>` when the body is empty (or could not be read). */
  function HttpErrorMessage(res: Response, bodyText: string): (m: string)
    ensures m != ""
    ensures bodyText != "" ==> m == bodyText
    ensures bodyText == "" ==> m == "Erro " + Text.IntToString(res.status) + ": " + res.statusText
  {
    if bodyText != "" then bodyText
    else "Erro " + Text.IntToString(res.status) + ": " + res.statusText
  }

  /** What a successful create call resolves to. */
  datatype Created<J> = ParsedBody(body: J) | SuccessDefault

  datatype Result<T> = Ok(value: T) | Err(message: string)

  /** The decision of `createNota` once the response has arrived; `parse` is
      `JSON.parse`, `None` where it throws. */
  function CreateNotaOutcome<J>(res: Response, bodyText: string, parse: string -> Js.Option<J>): (r: Result<Created<J>>)
  {
    if !res.Ok() then Err(HttpErrorMessage(res, bodyText))
    else
      match parse(bodyText)
      case Some(j) => Ok(ParsedBody(j))
      case None => Ok(SuccessDefault)
  }

  /** `createNota` fails on exactly the responses `assertOk` rejects, always with a
      non-empty message; on success it returns the parsed body, or `{success: true}`
      when the body is not JSON. */
  lemma CreateNotaAgreesWithAssertOk<J>(res: Response, bodyText: string, parse: string -> Js.Option<J>)
    ensures var r := CreateNotaOutcome(res, bodyText, parse);
            && (r.Err? <==> AssertOk(res).Fail?)
            && (r.Err? ==> r.message != "" && (bodyText != "" ==> r.message == bodyText))
            && (r.Err? && bodyText == "" ==>
                  r.message == "Erro " + Text.IntToString(res.status) + ": " + res.statusText)
            && (r.Ok? ==> (r.value == SuccessDefault <==> parse(bodyText).None?))
            && (r.Ok? && parse(bodyText).Some? ==> r.value == ParsedBody(parse(bodyText).value))
  {
  }
}

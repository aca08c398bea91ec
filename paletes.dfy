/** The pallet registration form (Paletes screen): the payload it sends, how it
    reads a failed submission, and the form state its submit handler leaves. */
module PaletesForm {
  import Text
  import Js
  import Api
  import opened Records

  const SemBandeira := "sem bandeira"

  /** `numeroPallet`: the trimmed input when that is not empty, `sem bandeira` otherwise. */
  function NumeroPallet(input: Js.Option<string>): string
  {
    if input.Some? && input.value != "" && Text.Trim(input.value) != "" then Text.Trim(input.value)
    else SemBandeira
  }

  /** The pallet number is never empty: a blank or missing input (the empty string
      included, which is falsy) falls back to `sem bandeira`, anything else is trimmed. */
  lemma NumeroPalletCases(input: Js.Option<string>)
    ensures NumeroPallet(input) != ""
    ensures input.Some? && Text.Trim(input.value) != "" ==> NumeroPallet(input) == Text.Trim(input.value)
    ensures input.None? || Text.Trim(input.value) == "" ==> NumeroPallet(input) == SemBandeira
  {
    if input.Some? && input.value == "" {
      assert Text.TrimStart("") == "";
    }
  }

  /** The pallet number carries no surrounding whitespace, and submitting it again
      as the input gives the same number. */
  lemma NumeroPalletNormal(input: Js.Option<string>)
    ensures var r := NumeroPallet(input);
            && !Text.IsSpace(r[0]) && !Text.IsSpace(r[|r| - 1])
            && NumeroPallet(Js.Some(r)) == r
  {
    NumeroPalletCases(input);
    var r := NumeroPallet(input);
    if input.Some? && Text.Trim(input.value) != "" {
      Text.TrimmedUnpadded(input.value);
    } else {
      UnpaddedDefault();
    }
    NumeroPalletCases(Js.Some(r));
  }

  lemma UnpaddedDefault()
    ensures !Text.IsSpace(SemBandeira[0]) && !Text.IsSpace(SemBandeira[|SemBandeira| - 1])
    ensures Text.Trim(SemBandeira) == SemBandeira
  {
    Text.TrimUnpadded(SemBandeira);
  }

  /** `b ? 'sim' : 'nao'`. */
  function Flag(b: bool): (f: SimNao)
    ensures SimNaoText(f) == (if b then "sim" else "nao")
  {
    if b then Sim else Nao
  }

  /** The values of the form when it is submitted. */
  datatype FormData = FormData(
    rota: int, numeroPalete: Js.Option<string>, tipologia: string, remontado: bool, conferido: bool)

  /** The payload of `onSubmit`: no date field, the service fills it in. */
  function BuildPayload(d: FormData): (p: Palete)
    ensures p.numeroRota == d.rota && p.tipologia == d.tipologia
    ensures p.numeroPallet == NumeroPallet(d.numeroPalete)
    ensures (p.remontado == Sim <==> d.remontado) && (p.conferido == Sim <==> d.conferido)
  {
    Palete(d.rota, NumeroPallet(d.numeroPalete), d.tipologia, Flag(d.remontado), Flag(d.conferido))
  }

  /** Two submissions produce the same payload exactly when they agree on the route,
      the type, both switches and the normalised pallet number. */
  lemma BuildPayloadInjective(d1: FormData, d2: FormData)
    ensures BuildPayload(d1) == BuildPayload(d2) <==>
              && d1.rota == d2.rota && d1.tipologia == d2.tipologia
              && d1.remontado == d2.remontado && d1.conferido == d2.conferido
              && NumeroPallet(d1.numeroPalete) == NumeroPallet(d2.numeroPalete)
  {
  }

  /* ------------------------------ error alerts ------------------------------- */

  datatype Alert = Alert(title: string, message: string)

  const ConflictAlert := Alert("Atenção", "Já existe palete para este dia/rota/número.")

  predicate IsConflict(msg: string)
  {
    Text.Contains(Text.ToLower(msg), "conflito") || Text.Contains(Text.ToLower(msg), "já existe")
  }

  /** The alert of the catch block, for `String(e?.message || '')`. */
  function ClassifyError(msg: string): (a: Alert)
    ensures a == ConflictAlert <==> IsConflict(msg)
    ensures !IsConflict(msg) ==> a == Alert("Erro", if msg != "" then msg else "Falha ao salvar palete")
  {
    if IsConflict(msg) then ConflictAlert
    else Alert("Erro", if msg != "" then msg else "Falha ao salvar palete")
  }

  /** The classification ignores letter case, and a conflict word anywhere in the
      message is enough. */
  lemma {:induction false} ConflictAnywhere(before: string, msg: string, after: string)
    ensures IsConflict(Text.ToLower(msg)) == IsConflict(msg)
    ensures IsConflict(msg) ==> IsConflict(before + msg + after)
  {
    Text.ToLowerIdempotent(msg);
    Text.ToLowerAppend(before + msg, after);
    Text.ToLowerAppend(before, msg);
    var l := Text.ToLower(msg);
    if Text.Contains(l, "conflito") {
      Text.ContainsWithin(Text.ToLower(before), l, Text.ToLower(after), "conflito");
    }
    if Text.Contains(l, "já existe") {
      Text.ContainsWithin(Text.ToLower(before), l, Text.ToLower(after), "já existe");
    }
  }

  /** A rejected create call always carries a message, so the default text is
      shown only when the service itself sends it. */
  lemma HttpFailureAlert(res: Api.Response, bodyText: string)
    ensures var m := Api.HttpErrorMessage(res, bodyText);
            ClassifyError(m) == ConflictAlert || ClassifyError(m) == Alert("Erro", m)
  {
  }

  /** The success alert, naming the `numeroPallet` of the record the service returned. */
  function SuccessAlert(saved: Js.Value): Alert
  {
    Alert("Sucesso", "Palete \"" + Js.ToString(Js.OptProp(saved, "numeroPallet")) + "\" cadastrado!")
  }

  /** The alert `onSubmit` shows for the outcome of `createPalete`. */
  function OutcomeAlert(outcome: Api.Result<Js.Value>): Alert
  {
    match outcome
    case Ok(saved) => SuccessAlert(saved)
    case Err(m) => ClassifyError(m)
  }

  /** Only a success is titled `Sucesso`; a failure is either the conflict warning
      or an error showing the rejection's message. */
  lemma OutcomeAlertTitle(outcome: Api.Result<Js.Value>)
    ensures OutcomeAlert(outcome).title == "Sucesso" <==> outcome.Ok?
    ensures outcome.Err? && outcome.message != "" ==>
              OutcomeAlert(outcome) == ConflictAlert || OutcomeAlert(outcome) == Alert("Erro", outcome.message)
  {
  }

  /* ---------------------------------- form ----------------------------------- */

  /** The registration form. `picker` is the drop-down's own selection, mirrored
      into `tipologia`; `sent` lists the payloads submitted so far. */
  class Form {
    var rota: int
    var numeroPalete: Js.Option<string>
    var tipologia: string
    var remontado: bool
    var conferido: bool
    var picker: Js.Option<string>
    var submitting: bool
    var alert: Js.Option<Alert>
    var sent: seq<Palete>

    constructor ()
      ensures rota == 0 && numeroPalete == Js.Some("") && tipologia == ""
      ensures !remontado && !conferido && picker == Js.None
      ensures !submitting && alert == Js.None && sent == []
    {
      rota, numeroPalete, tipologia := 0, Js.Some(""), "";
      remontado, conferido, picker := false, false, Js.None;
      submitting, alert, sent := false, Js.None, [];
    }

    function Data(): FormData
      reads this
    {
      FormData(rota, numeroPalete, tipologia, remontado, conferido)
    }

    /** Choosing in the drop-down; the effect copies `tipologia ?? ''` into the form. */
    method ChooseTipologia(t: Js.Option<string>)
      modifies this
      ensures picker == t && tipologia == (if t.Some? then t.value else "")
      ensures rota == old(rota) && numeroPalete == old(numeroPalete)
      ensures remontado == old(remontado) && conferido == old(conferido)
      ensures submitting == old(submitting) && alert == old(alert) && sent == old(sent)
    {
      picker := t;
      tipologia := if t.Some? then t.value else "";
    }

    /** `onSubmit`, given what `createPalete` resolves to (`Ok` with the saved record,
        or `Err` with the rejection's message). The route survives a success; every
        other field is cleared. A failure leaves the form as it was. */
    method OnSubmit(outcome: Api.Result<Js.Value>)
      modifies this
      ensures sent == old(sent) + [BuildPayload(old(Data()))]
      ensures !submitting
      ensures rota == old(rota)
      ensures alert == Js.Some(OutcomeAlert(outcome))
      ensures outcome.Ok? ==>
                && numeroPalete == Js.Some("") && !remontado && !conferido
                && picker == Js.None && tipologia == ""
      ensures outcome.Err? ==>
                && numeroPalete == old(numeroPalete) && remontado == old(remontado)
                && conferido == old(conferido) && picker == old(picker) && tipologia == old(tipologia)
    {
      var payload := BuildPayload(Data());
      var shown := OutcomeAlert(outcome);
      submitting := true;
      sent := sent + [payload];
      alert := Js.Some(shown);
      if outcome.Ok? {
        PartialReset();
      }
      submitting := false;
    }

    /** The partial reset after a success: the route stays, the pallet number, both
        switches and the type (drop-down and form value) are cleared. */
    method PartialReset()
      modifies this
      ensures numeroPalete == Js.Some("") && !remontado && !conferido
      ensures picker == Js.None && tipologia == ""
      ensures rota == old(rota) && submitting == old(submitting)
      ensures alert == old(alert) && sent == old(sent)
    {
      numeroPalete := Js.Some("");
      remontado := false;
      conferido := false;
      picker := Js.None;
      tipologia := "";
    }
  }
}

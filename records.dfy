/** The two record kinds the checklist client creates: a delivery-note check
    (Nota) and a pallet check (Palete). They are the payloads sent to the
    remote service and the elements of the offline queues. */
module Records {
  import Js

  datatype SimNao = Sim | Nao

  /** The wire form of a `sim`/`nao` flag. */
  function SimNaoText(f: SimNao): string
  {
    match f
    case Sim => "sim"
    case Nao => "nao"
  }

  /** One itemised damage entry of a Nota. */
  datatype AvariaItem = AvariaItem(
    tipoErro: string,
    codProduto: Js.Option<string>,
    descProduto: Js.Option<string>,
    quantidade: Js.Option<string>,
    unidadeMedida: Js.Option<string>)

  datatype Nota = Nota(
    numeroRota: int,
    numeroNota: int,
    tipologia: string,
    conferidoPor: string,
    avaria: SimNao,
    avarias: Js.Option<seq<AvariaItem>>)

  datatype Palete = Palete(
    numeroRota: int,
    numeroPallet: string,
    tipologia: string,
    remontado: SimNao,
    conferido: SimNao)
}

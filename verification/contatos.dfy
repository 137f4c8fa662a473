/** Contact-form helpers (src/endpoints/contatos/base.ts and
    contatoCreate.ts): Brazilian phone formatting, the contact status
    enumeration, and the pre-processing applied before a contact is stored. */
module Contatos {
  import opened Base

  // ---------------------------------------------------------------------
  // Phone formatting
  // ---------------------------------------------------------------------

  /** `replace(/\D/g, '')`: the decimal digits of `s`, in order. */
  function OnlyDigits(s: string): (d: string)
    ensures AllDigits(d) && |d| <= |s|
    decreases |s|
  {
    if |s| == 0 then "" else (if IsDigit(s[0]) then [s[0]] else []) + OnlyDigits(s[1..])
  }

  lemma {:induction false} OnlyDigitsConcat(a: string, b: string)
    ensures OnlyDigits(a + b) == OnlyDigits(a) + OnlyDigits(b)
    decreases |a|
  {
    if |a| > 0 {
      assert (a + b)[1..] == a[1..] + b;
      OnlyDigitsConcat(a[1..], b);
    } else {
      assert a + b == b;
    }
  }

  lemma {:induction false} OnlyDigitsOfDigits(s: string)
    requires AllDigits(s)
    ensures OnlyDigits(s) == s
    decreases |s|
  {
    if |s| > 0 {
      OnlyDigitsOfDigits(s[1..]);
    }
  }

  lemma {:induction false} OnlyDigitsOfNoDigits(s: string)
    requires forall i :: 0 <= i < |s| ==> !IsDigit(s[i])
    ensures OnlyDigits(s) == ""
    decreases |s|
  {
    if |s| > 0 {
      OnlyDigitsOfNoDigits(s[1..]);
    }
  }

  /** One leading `55` (the country code) is removed if present. */
  function StripCountryCode(d: string): string {
    if StartsWith(d, "55") then d[2..] else d
  }

  /** The national digits `formatarTelefone` works on. */
  function NationalDigits(telefone: string): string {
    StripCountryCode(OnlyDigits(telefone))
  }

  /** `s` follows `mask`, where `#` stands for any decimal digit and every other
      character must appear as is. */
  predicate Fits(s: string, mask: string) {
    |s| == |mask|
    && forall i :: 0 <= i < |s| ==> if mask[i] == '#' then IsDigit(s[i]) else s[i] == mask[i]
  }

  const MobileMask: string := "(##) #####-####"
  const LandlineMask: string := "(##) ####-####"

  /** The two-digit area code in parentheses, a space, the subscriber number
      split before its last four digits. */
  function Layout(d: string): (r: string)
    requires |d| == 10 || |d| == 11
  {
    var split := |d| - 4;
    "(" + (d[..2] + (") " + (d[2..split] + ("-" + d[split..]))))
  }

  /** Characters without digits around a string add none. */
  lemma OnlyDigitsAfterMark(mark: string, x: string)
    requires forall i :: 0 <= i < |mark| ==> !IsDigit(mark[i])
    ensures OnlyDigits(mark + x) == OnlyDigits(x)
  {
    OnlyDigitsConcat(mark, x);
    OnlyDigitsOfNoDigits(mark);
  }

  lemma OnlyDigitsAfterDigits(a: string, x: string)
    requires AllDigits(a)
    ensures OnlyDigits(a + x) == a + OnlyDigits(x)
  {
    OnlyDigitsConcat(a, x);
    OnlyDigitsOfDigits(a);
  }

  /** The layout keeps exactly the digits it was given. */
  lemma LayoutKeepsDigits(d: string)
    requires AllDigits(d) && (|d| == 10 || |d| == 11)
    ensures OnlyDigits(Layout(d)) == d
  {
    var split := |d| - 4;
    var a, b, c := d[..2], d[2..split], d[split..];
    var t3 := "-" + c;
    OnlyDigitsAfterMark("-", c);
    OnlyDigitsOfDigits(c);
    var t2 := b + t3;
    OnlyDigitsAfterDigits(b, t3);
    var t1 := ") " + t2;
    OnlyDigitsAfterMark(") ", t2);
    var t0 := a + t1;
    OnlyDigitsAfterDigits(a, t1);
    OnlyDigitsAfterMark("(", t0);
    assert d == a + (b + c);
  }

  /** The layout follows the mobile mask for eleven digits and the landline
      mask for ten. */
  lemma LayoutFitsMask(d: string)
    requires AllDigits(d) && (|d| == 10 || |d| == 11)
    ensures |d| == 11 ==> Fits(Layout(d), MobileMask)
    ensures |d| == 10 ==> Fits(Layout(d), LandlineMask)
  {
  }

  /** `formatarTelefone`: eleven national digits become `(AA) NNNNN-NNNN`, ten
      become `(AA) NNNN-NNNN`, and any other count leaves the input unchanged. */
  function FormatarTelefone(telefone: string): (r: string)
    ensures var d := NationalDigits(telefone);
            && (|d| == 11 ==> |r| == 15 && Fits(r, MobileMask) && OnlyDigits(r) == d)
            && (|d| == 10 ==> |r| == 14 && Fits(r, LandlineMask) && OnlyDigits(r) == d)
            && (|d| != 10 && |d| != 11 ==> r == telefone)
  {
    var d := NationalDigits(telefone);
    if |d| == 11 || |d| == 10 then
      LayoutKeepsDigits(d);
      LayoutFitsMask(d);
      Layout(d)
    else telefone
  }

  /** Formatting twice is formatting once. */
  lemma FormatarTelefoneIdempotent(telefone: string)
    ensures FormatarTelefone(FormatarTelefone(telefone)) == FormatarTelefone(telefone)
  {
    var d := NationalDigits(telefone);
    if |d| == 10 || |d| == 11 {
      var r := FormatarTelefone(telefone);
      assert OnlyDigits(r) == d;
      if !StartsWith(d, "55") {
        assert NationalDigits(r) == d;
      }
    }
  }

  /** An eleven-digit number whose area code is 55 loses those two digits as if
      they were the country code, so it is never formatted unless the country
      code is written too. */
  lemma AreaCode55LeftUnformatted(telefone: string)
    requires AllDigits(telefone) && |telefone| == 11 && StartsWith(telefone, "55")
    ensures FormatarTelefone(telefone) == telefone
  {
    OnlyDigitsOfDigits(telefone);
  }

  // ---------------------------------------------------------------------
  // Status and creation
  // ---------------------------------------------------------------------

  datatype ContatoStatus = Novo | EmAndamento | Respondido | Finalizado

  function StatusName(s: ContatoStatus): (n: string)
    ensures ParseStatus(n) == Some(s)
  {
    match s
    case Novo => "novo"
    case EmAndamento => "em_andamento"
    case Respondido => "respondido"
    case Finalizado => "finalizado"
  }

  /** The `contatoUpdateStatus` enumeration: exactly four names are accepted. */
  function ParseStatus(n: string): (r: Option<ContatoStatus>)
    ensures r.Some? <==> n in ["novo", "em_andamento", "respondido", "finalizado"]
  {
    if n == "novo" then Some(Novo)
    else if n == "em_andamento" then Some(EmAndamento)
    else if n == "respondido" then Some(Respondido)
    else if n == "finalizado" then Some(Finalizado)
    else None
  }

  /** A row of the `servicos` table, reduced to what the check reads. */
  datatype Servico = Servico(id: int, nome: string, ativo: bool)

  /** `SELECT id, nome FROM servicos WHERE id = ? AND ativo = 1` finds a row. */
  predicate ServiceAvailable(servicos: seq<Servico>, id: int) {
    exists i :: 0 <= i < |servicos| && servicos[i].id == id && servicos[i].ativo
  }

  /** The body of a contact submission; `status` is whatever the client sent. */
  datatype ContatoInput = ContatoInput(
    nome: string,
    email: string,
    telefone: string,
    servicoId: int,
    mensagem: string,
    empresa: Option<string>,
    status: Option<string>)

  /** The record handed on for insertion. */
  datatype Contato = Contato(
    nome: string,
    email: string,
    telefone: string,
    servicoId: int,
    mensagem: string,
    empresa: Option<string>,
    status: ContatoStatus)

  datatype Created = Rejected(message: string) | Accepted(record: Contato)

  const ServiceUnavailable: string := "Serviço não encontrado ou não está disponível"

  /** `ContatoCreate.beforeCreate`. */
  function BeforeCreate(servicos: seq<Servico>, data: ContatoInput): (r: Created)
    ensures r.Rejected? <==> !ServiceAvailable(servicos, data.servicoId)
    ensures r.Rejected? ==> r.message == ServiceUnavailable
    ensures r.Accepted? ==> r.record.telefone == FormatarTelefone(data.telefone) && r.record.status == Novo
    ensures r.Accepted? ==> && r.record.nome == data.nome && r.record.email == data.email
                            && r.record.servicoId == data.servicoId && r.record.mensagem == data.mensagem
                            && r.record.empresa == data.empresa
  {
    if !ServiceAvailable(servicos, data.servicoId) then Rejected(ServiceUnavailable)
    else Accepted(Contato(data.nome, data.email, FormatarTelefone(data.telefone), data.servicoId,
                          data.mensagem, data.empresa, Novo))
  }

  /** The record as a submission again. */
  function Resubmit(c: Contato, status: Option<string>): ContatoInput {
    ContatoInput(c.nome, c.email, c.telefone, c.servicoId, c.mensagem, c.empresa, status)
  }

  /** Pre-processing ignores the client's status and is idempotent: feeding
      the prepared record back in prepares the same record. */
  lemma BeforeCreateIdempotent(servicos: seq<Servico>, data: ContatoInput, status: Option<string>)
    requires BeforeCreate(servicos, data).Accepted?
    ensures var c := BeforeCreate(servicos, data).record;
            BeforeCreate(servicos, Resubmit(c, status)) == Accepted(c)
  {
    FormatarTelefoneIdempotent(data.telefone);
  }
}

/**
 * The validation schema the "Usuario" form is checked against before the
 * register, alter and delete handlers run (search runs without it): a
 * required-and-minimum-length rule per text field, and the
 * confirmation that must repeat the password. `endereco` and `id` have no rule.
 */
module Schema {
  import opened Records

  /** The fields the schema constrains. */
  datatype Field = Nome | Email | Cep | Numero | Senha | ConfirmaSenha

  /**
   * The JavaScript `length` of `s`, which `.min(n)` compares: UTF-16 code units,
   * so a character outside the Basic Multilingual Plane counts twice.
   */
  function Utf16Length(s: string): (n: nat)
    ensures |s| <= n <= 2 * |s|
  {
    if s == [] then 0
    else (if s[0] < '\U{10000}' then 1 else 2) + Utf16Length(s[1..])
  }

  /** The JavaScript length is the character count exactly when every character is in the BMP. */
  lemma {:induction false} Utf16LengthIsCountIffBmp(s: string)
    ensures Utf16Length(s) == |s| <==> forall i :: 0 <= i < |s| ==> s[i] < '\U{10000}'
  {
    if s != [] {
      Utf16LengthIsCountIffBmp(s[1..]);
      assert forall i :: 1 <= i < |s| ==> s[i] == s[1..][i - 1];
    }
  }

  /** `.required().min(n)` on a string: present, not empty, and at least `n` long. */
  predicate HasMin(s: string, n: nat) {
    s != "" && Utf16Length(s) >= n
  }

  /** Two emoji are four UTF-16 code units, enough for a three-character minimum. */
  lemma EmojiPairMeetsMinThree()
    ensures |"\U{1F600}\U{1F600}"| == 2 && HasMin("\U{1F600}\U{1F600}", 3)
  {
  }

  /** Whether field `f` of `d` passes its rule. */
  predicate FieldAccepted(d: FormData, f: Field) {
    match f
    case Nome => HasMin(d.nome, 3)
    case Email => HasMin(d.email, 6)
    case Cep => HasMin(d.cep, 3)
    case Numero => HasMin(d.numero, 2)
    case Senha => HasMin(d.senha, 3)
    case ConfirmaSenha => d.confirmaSenha != "" && d.confirmaSenha == d.senha
  }

  /** Every field the schema names, in its declaration order. */
  const AllFields: seq<Field> := [Nome, Email, Cep, Numero, Senha, ConfirmaSenha]

  /** `AllFields` lists every field. */
  lemma AllFieldsListed()
    ensures forall f :: f in AllFields
  {
    forall f ensures f in AllFields {
      match f
      case Nome => assert AllFields[0] == f;
      case Email => assert AllFields[1] == f;
      case Cep => assert AllFields[2] == f;
      case Numero => assert AllFields[3] == f;
      case Senha => assert AllFields[4] == f;
      case ConfirmaSenha => assert AllFields[5] == f;
    }
  }

  /** The fields among `fields` that break their rule. */
  function RejectedAmong(d: FormData, fields: seq<Field>): (r: set<Field>)
    ensures forall f :: f in r <==> f in fields && !FieldAccepted(d, f)
  {
    if fields == [] then {}
    else (if FieldAccepted(d, fields[0]) then {} else {fields[0]}) + RejectedAmong(d, fields[1..])
  }

  /** The fields the form reports an error for. */
  function Rejected(d: FormData): (r: set<Field>)
    ensures forall f :: f in r <==> !FieldAccepted(d, f)
  {
    AllFieldsListed();
    RejectedAmong(d, AllFields)
  }

  /** The form is submitted only when no field is rejected. */
  predicate Accepted(d: FormData) {
    Rejected(d) == {}
  }

  /** The rules, stated as the minimum JavaScript lengths and the password match. */
  lemma AcceptedMeans(d: FormData)
    ensures Accepted(d) <==>
      && Utf16Length(d.nome) >= 3
      && Utf16Length(d.email) >= 6
      && Utf16Length(d.cep) >= 3
      && Utf16Length(d.numero) >= 2
      && Utf16Length(d.senha) >= 3
      && d.confirmaSenha == d.senha
  {
    if Accepted(d) {
      assert Nome !in Rejected(d) && Email !in Rejected(d) && Cep !in Rejected(d);
      assert Numero !in Rejected(d) && Senha !in Rejected(d) && ConfirmaSenha !in Rejected(d);
    } else {
      var f :| f in Rejected(d);
    }
  }

  /** Neither `endereco` nor `id` takes part in validation. */
  lemma EnderecoAndIdUnconstrained(d: FormData, endereco: string, id: string)
    ensures Rejected(d.(endereco := endereco, id := id)) == Rejected(d)
  {
  }

  /** Every record of `s` passed the schema. */
  predicate AllAccepted(s: seq<FormData>) {
    forall i :: 0 <= i < |s| ==> Accepted(s[i])
  }

  /** Appending an accepted record keeps every record accepted. */
  lemma AppendKeepsAllAccepted(s: seq<FormData>, x: FormData)
    requires AllAccepted(s) && Accepted(x)
    ensures AllAccepted(s + [x])
  {
    var t := s + [x];
    forall i | 0 <= i < |t|
      ensures Accepted(t[i])
    {
      if i < |s| {
        assert t[i] == s[i];
      }
    }
  }

  /** Replacing a record by an accepted one keeps every record accepted. */
  lemma ReplaceKeepsAllAccepted(s: seq<FormData>, i: nat, x: FormData)
    requires AllAccepted(s) && i < |s| && Accepted(x)
    ensures AllAccepted(s[i := x])
  {
  }

  /** Removing a record keeps every record accepted. */
  lemma RemoveKeepsAllAccepted(s: seq<FormData>, i: nat)
    requires AllAccepted(s) && i < |s|
    ensures AllAccepted(s[..i] + s[i + 1..])
  {
    var t := s[..i] + s[i + 1..];
    forall j | 0 <= j < |t|
      ensures Accepted(t[j])
    {
      assert t[j] == if j < i then s[j] else s[j + 1];
    }
  }
}

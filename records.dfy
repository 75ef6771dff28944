/**
 * The user record kept by the "Usuario" screen, and the array operations the
 * screen's handlers use on the stored list of records: `findIndex`, `find` and
 * `splice`, as JavaScript defines them for the arguments the screen passes.
 */
module Records {

  datatype Option<+T> = None | Some(value: T)

  /**
   * One user record. The form holds exactly these fields and the store keeps the
   * whole object, `confirmaSenha` included. `id` is a generated identifier.
   */
  datatype FormData = FormData(
    id: string,
    nome: string,
    email: string,
    cep: string,
    endereco: string,
    numero: string,
    senha: string,
    confirmaSenha: string)

  /** Some record of `s` carries identifier `id`. */
  predicate HasId(s: seq<FormData>, id: string) {
    exists j :: 0 <= j < |s| && s[j].id == id
  }

  /** No two records of `s` share an identifier. */
  predicate UniqueIds(s: seq<FormData>) {
    forall i, j :: 0 <= i < j < |s| ==> s[i].id != s[j].id
  }

  /**
   * `s.findIndex(item => item.id === id)`: the first position whose record has
   * identifier `id`, or -1 when there is none.
   */
  function FindIndex(s: seq<FormData>, id: string): (r: int)
    ensures -1 <= r < |s|
    ensures r == -1 <==> !HasId(s, id)
    ensures 0 <= r ==> s[r].id == id && forall j :: 0 <= j < r ==> s[j].id != id
  {
    if s == [] then -1
    else if s[0].id == id then 0
    else
      var k := FindIndex(s[1..], id);
      if k == -1 then -1 else k + 1
  }

  /**
   * `s.find(item => item.id === id)`: the first record with identifier `id`,
   * or nothing (`undefined`) when there is none.
   */
  function Find(s: seq<FormData>, id: string): (r: Option<FormData>)
    ensures r.None? <==> !HasId(s, id)
    ensures r.Some? ==> r.value.id == id && r.value in s
  {
    if s == [] then None
    else if s[0].id == id then Some(s[0])
    else Find(s[1..], id)
  }

  /** `find` returns the element at the position `findIndex` reports. */
  lemma {:induction false} FindIsFirstMatch(s: seq<FormData>, id: string)
    ensures Find(s, id) == if FindIndex(s, id) == -1 then None else Some(s[FindIndex(s, id)])
  {
    if s != [] && s[0].id != id {
      FindIsFirstMatch(s[1..], id);
    }
  }

  /** A position holding `id` with no earlier match is what `findIndex` reports. */
  lemma FirstMatchIsFindIndex(s: seq<FormData>, id: string, i: nat)
    requires i < |s| && s[i].id == id
    requires forall j :: 0 <= j < i ==> s[j].id != id
    ensures FindIndex(s, id) == i
  {
  }

  /** Where `splice` starts for a non-negative `start`: clamped to the length. */
  function SpliceStart(len: nat, start: nat): (k: nat)
    ensures k <= len
    ensures k == start || (start > len && k == len)
  {
    if start <= len then start else len
  }

  /** How many elements `splice` removes for a non-negative `deleteCount`. */
  function SpliceCount(len: nat, start: nat, deleteCount: nat): (d: nat)
    ensures SpliceStart(len, start) + d <= len && d <= deleteCount
    ensures d == deleteCount || SpliceStart(len, start) + d == len
  {
    var k := SpliceStart(len, start);
    if deleteCount <= len - k then deleteCount else len - k
  }

  /**
   * The array `s.splice(start, deleteCount, ...items)` leaves behind: the
   * elements before the start, then `items`, then what follows the removed
   * elements.
   */
  function Splice<T>(s: seq<T>, start: nat, deleteCount: nat, items: seq<T>): (r: seq<T>)
    ensures var k, d := SpliceStart(|s|, start), SpliceCount(|s|, start, deleteCount);
      && |r| == |s| - d + |items|
      && (forall j :: 0 <= j < k ==> r[j] == s[j])
      && (forall j :: 0 <= j < |items| ==> r[k + j] == items[j])
      && (forall j :: k + d <= j < |s| ==> r[j - d + |items|] == s[j])
  {
    var k, d := SpliceStart(|s|, start), SpliceCount(|s|, start, deleteCount);
    s[..k] + items + s[k + d..]
  }

  /** Removing the element at `i` and inserting `x` at `i` replaces element `i`. */
  lemma SplicesReplaceAt(s: seq<FormData>, i: nat, x: FormData)
    requires i < |s|
    ensures Splice(Splice(s, i, 1, []), i, 0, [x]) == s[i := x]
  {
    var t := Splice(s, i, 1, []);
    var u := Splice(t, i, 0, [x]);
    assert |u| == |s|;
    forall j | 0 <= j < |s|
      ensures u[j] == s[i := x][j]
    {
      if j < i {
        assert u[j] == t[j] == s[j];
      } else if j == i {
        assert u[i + 0] == x;
      } else {
        assert u[j] == t[j - 1] == s[j];
      }
    }
  }

  /** Removing one element at `i` is the list without its element `i`. */
  lemma SpliceRemovesAt(s: seq<FormData>, i: nat)
    requires i < |s|
    ensures Splice(s, i, 1, []) == s[..i] + s[i + 1..]
  {
  }

  /** An appended record with an unused identifier keeps identifiers unique. */
  lemma AppendKeepsIdsUnique(s: seq<FormData>, x: FormData)
    requires UniqueIds(s) && !HasId(s, x.id)
    ensures UniqueIds(s + [x])
  {
    var t := s + [x];
    forall i, j | 0 <= i < j < |t|
      ensures t[i].id != t[j].id
    {
      if j == |s| {
        assert t[i] == s[i];
      }
    }
  }

  /** Replacing a record by one with the same identifier keeps identifiers unique. */
  lemma ReplaceKeepsIdsUnique(s: seq<FormData>, i: nat, x: FormData)
    requires UniqueIds(s) && i < |s| && s[i].id == x.id
    ensures UniqueIds(s[i := x])
  {
  }

  /** Removing a record keeps identifiers unique. */
  lemma RemoveKeepsIdsUnique(s: seq<FormData>, i: nat)
    requires UniqueIds(s) && i < |s|
    ensures UniqueIds(s[..i] + s[i + 1..])
  {
    var t := s[..i] + s[i + 1..];
    forall a, b | 0 <= a < b < |t|
      ensures t[a].id != t[b].id
    {
      var a', b' := if a < i then a else a + 1, if b < i then b else b + 1;
      assert t[a] == s[a'] && t[b] == s[b'];
    }
  }

  /** A search for a freshly appended identifier finds the appended record. */
  lemma SearchAfterAppend(s: seq<FormData>, x: FormData)
    requires !HasId(s, x.id)
    ensures Find(s + [x], x.id) == Some(x)
  {
    var t := s + [x];
    FirstMatchIsFindIndex(t, x.id, |s|);
    FindIsFirstMatch(t, x.id);
  }

  /**
   * After the first record with `x`'s identifier is replaced by `x`, a search for
   * that identifier finds `x`.
   */
  lemma SearchAfterReplace(s: seq<FormData>, x: FormData)
    requires HasId(s, x.id)
    ensures Find(s[FindIndex(s, x.id) := x], x.id) == Some(x)
  {
    var i := FindIndex(s, x.id);
    var t := s[i := x];
    FirstMatchIsFindIndex(t, x.id, i);
    FindIsFirstMatch(t, x.id);
  }

  /** Once the record at `i` is removed from a list of unique identifiers, its identifier is gone. */
  lemma SearchAfterRemove(s: seq<FormData>, i: nat)
    requires UniqueIds(s) && i < |s|
    ensures Find(s[..i] + s[i + 1..], s[i].id) == None
  {
    var t := s[..i] + s[i + 1..];
    forall j | 0 <= j < |t|
      ensures t[j].id != s[i].id
    {
      if j < i {
        assert t[j] == s[j];
      } else {
        assert t[j] == s[j + 1];
      }
    }
  }
}

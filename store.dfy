/**
 * The local record store behind the "Usuario" screen. All records live as one
 * array under the storage key `@crud_form:usuario`; every handler reads that
 * array (an absent key reads as the empty array), changes it, and writes the
 * whole array back, or writes nothing when the record it looks for is missing.
 */
module Store {
  import opened Records
  import opened Schema

  class UsuarioStore {
    /** The array stored under the key "@crud_form:usuario"; `None` while the key is absent. */
    var slot: Option<seq<FormData>>

    constructor ()
      ensures slot == None
    {
      slot := None;
    }

    /** The array the handlers read (`dbData`): the stored array, or `[]` for an absent key. */
    function DbData(): (r: seq<FormData>)
      reads this
      ensures slot.None? ==> r == []
      ensures slot.Some? ==> r == slot.value
    {
      match slot
      case None => []
      case Some(s) => s
    }

    /**
     * `handlerRegister`: give the submitted record the identifier `newId` and
     * append it to the stored records.
     */
    method Register(data: FormData, newId: string) returns (saved: FormData)
      modifies this
      ensures saved == data.(id := newId)
      ensures slot == Some(old(DbData()) + [saved])
      ensures |DbData()| == |old(DbData())| + 1
      ensures DbData()[..|old(DbData())|] == old(DbData()) && DbData()[|old(DbData())|] == saved
      ensures !HasId(old(DbData()), newId) ==> Find(DbData(), newId) == Some(saved)
      ensures UniqueIds(old(DbData())) && !HasId(old(DbData()), newId) ==> UniqueIds(DbData())
      ensures AllAccepted(old(DbData())) && Accepted(data) ==> AllAccepted(DbData())
    {
      saved := data.(id := newId);
      var dbData := DbData();
      var previewData := dbData + [saved];
      ghost var freshId, unique := !HasId(dbData, newId), UniqueIds(dbData);
      ghost var accepted := AllAccepted(dbData) && Accepted(data);
      if freshId {
        SearchAfterAppend(dbData, saved);
        if unique {
          AppendKeepsIdsUnique(dbData, saved);
        }
      }
      if accepted {
        EnderecoAndIdUnconstrained(data, data.endereco, newId);
        AppendKeepsAllAccepted(dbData, saved);
      }
      slot := Some(previewData);
    }

    /**
     * `handlerSearcher`: the first stored record with identifier `id`, which the
     * screen then copies into its form; nothing when no record has it.
     */
    method Search(id: string) returns (found: Option<FormData>)
      ensures found.None? <==> !HasId(DbData(), id)
      ensures found.Some? ==> found.value == DbData()[FindIndex(DbData(), id)]
      ensures slot == None ==> found == None
    {
      var dbData := DbData();
      found := Find(dbData, id);
      FindIsFirstMatch(dbData, id);
    }

    /**
     * `handlerAlterRegister`: when a stored record has `data.id`, put `data` in
     * place of the first such record and write the array back; otherwise write
     * nothing.
     */
    method Alter(data: FormData) returns (altered: bool)
      modifies this
      ensures altered <==> HasId(old(DbData()), data.id)
      ensures !altered ==> slot == old(slot)
      ensures altered ==>
        var i := FindIndex(old(DbData()), data.id);
        && 0 <= i < |old(DbData())|
        && slot == Some(old(DbData())[i := data])
      ensures altered ==> Find(DbData(), data.id) == Some(data)
      ensures UniqueIds(old(DbData())) ==> UniqueIds(DbData())
      ensures AllAccepted(old(DbData())) && Accepted(data) ==> AllAccepted(DbData())
    {
      var dbData := DbData();
      var indexToRemove := FindIndex(dbData, data.id);
      altered := indexToRemove != -1;
      if altered {
        SplicesReplaceAt(dbData, indexToRemove, data);
        SearchAfterReplace(dbData, data);
        ghost var unique, accepted := UniqueIds(dbData), AllAccepted(dbData) && Accepted(data);
        if unique {
          ReplaceKeepsIdsUnique(dbData, indexToRemove, data);
        }
        if accepted {
          ReplaceKeepsAllAccepted(dbData, indexToRemove, data);
        }
        dbData := Splice(dbData, indexToRemove, 1, []);
        dbData := Splice(dbData, indexToRemove, 0, [data]);
        slot := Some(dbData);
      }
    }

    /**
     * `HandleDelete`: when a stored record has `data.id`, remove the first such
     * record and write the array back; otherwise write nothing.
     */
    method Delete(data: FormData) returns (deleted: bool)
      modifies this
      ensures deleted <==> HasId(old(DbData()), data.id)
      ensures !deleted ==> slot == old(slot)
      ensures deleted ==>
        var i := FindIndex(old(DbData()), data.id);
        && 0 <= i < |old(DbData())|
        && slot == Some(old(DbData())[..i] + old(DbData())[i + 1..])
      ensures deleted ==> |DbData()| == |old(DbData())| - 1
      ensures deleted && UniqueIds(old(DbData())) ==> Find(DbData(), data.id) == None
      ensures UniqueIds(old(DbData())) ==> UniqueIds(DbData())
      ensures AllAccepted(old(DbData())) ==> AllAccepted(DbData())
    {
      var dbData := DbData();
      var indexRemove := FindIndex(dbData, data.id);
      deleted := indexRemove != -1;
      if deleted {
        ghost var rest := dbData[..indexRemove] + dbData[indexRemove + 1..];
        SpliceRemovesAt(dbData, indexRemove);
        ghost var unique, accepted := UniqueIds(dbData), AllAccepted(dbData);
        if unique {
          RemoveKeepsIdsUnique(dbData, indexRemove);
          SearchAfterRemove(dbData, indexRemove);
        }
        if accepted {
          RemoveKeepsAllAccepted(dbData, indexRemove);
        }
        dbData := Splice(dbData, indexRemove, 1, []);
        assert dbData == rest && |rest| == |DbData()| - 1;
        slot := Some(dbData);
      }
    }
  }

  /** Register any record in an empty store, change its number, delete it: the store ends up empty. */
  method RegisterAlterDeleteScenario(ana: FormData, newId: string) {
    var store := new UsuarioStore();
    var saved := store.Register(ana, newId);
    assert store.DbData() == [saved];
    var found := store.Search(newId);
    assert found == Some(saved);
    var altered := store.Alter(saved.(numero := "20"));
    assert altered && store.DbData() == [saved.(numero := "20")];
    var deleted := store.Delete(saved);
    assert deleted && store.DbData() == [];
  }
}

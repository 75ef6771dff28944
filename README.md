# Usuario record store

A model of the user screen of a React Native app (`src/screens/usuario/index.tsx`). The
screen registers, searches, alters and deletes "Usuario" records. All records are kept
as one array under the local storage key `@crud_form:usuario`, and a yup schema checks
the form before the register, alter and delete handlers run.

- `records.dfy` (module `Records`): the record type `FormData`. It also holds the array
  operations the handlers call: `findIndex`, `find` and `splice`. The lemmas cover first-match
  lookup, replace and remove by splicing, id uniqueness and search after each change.
- `schema.dfy` (module `Schema`): the validation rules as predicates over a record. Lengths
  are JavaScript lengths, counted in UTF-16 code units as `.min(n)` counts them.
- `store.dfy` (module `Store`): the class `UsuarioStore`. Its field `slot` is the value
  under the storage key, and `None` means the key is absent. It has one method per handler.
  Each method states the new stored value in terms of the old one. A closing client method
  runs the register, alter and delete lifecycle for one record.

Storage is modelled as the already-parsed array: `JSON.stringify` followed by `JSON.parse`
is taken to give back the same records. The identifier from `uuid.v4()` is the parameter
`newId` of `Register`. The source's `any`-typed `id` is a string.

Two behaviours of the code are kept as they are written:

- A missing record on alter or delete is not an error value. The handler shows a toast,
  writes nothing and carries on. The model returns `false` and leaves `slot` as it was, so
  an absent key stays absent.
- The store does not re-validate the records it stores. Validation happens only in the
  form, through `handleSubmit`. The methods therefore take any record. Keeping "every
  stored record passed the schema" is a conditional postcondition.

## Model

| member | source | states |
|---|---|---|
| Records.FindIndex | src/screens/usuario/index.tsx:149-151 | the result is -1 exactly when no record has the id; otherwise it is a position holding the id with no match before it |
| Records.Find | src/screens/usuario/index.tsx:124-125 | nothing is found exactly when no record has the id; a found record has the id and is in the list |
| Records.FindIsFirstMatch | src/screens/usuario/index.tsx:124 | `find` returns the record at the position `findIndex` reports, or nothing when that is -1 |
| Records.Splice | src/screens/usuario/index.tsx:152-153 | `splice` keeps the elements before the clamped start, then the inserted items, then the elements after the removed ones, and has the matching length |
| Records.SplicesReplaceAt | src/screens/usuario/index.tsx:152-153 | removing element i and inserting the new record at i is replacing element i: same length, same positions, all other elements unchanged |
| Records.SpliceRemovesAt | src/screens/usuario/index.tsx:188 | removing one element at i leaves the elements before i and shifts those after i down by one |
| Records.AppendKeepsIdsUnique | src/screens/usuario/index.tsx:95-100 | appending a record whose id is not yet used keeps all ids distinct |
| Records.ReplaceKeepsIdsUnique | src/screens/usuario/index.tsx:149-153 | replacing a record by one with the same id keeps all ids distinct |
| Records.RemoveKeepsIdsUnique | src/screens/usuario/index.tsx:185-188 | removing a record keeps all ids distinct |
| Records.SearchAfterAppend | src/screens/usuario/index.tsx:100-105 | after appending a record with an unused id, a search for that id returns that record |
| Records.SearchAfterReplace | src/screens/usuario/index.tsx:149-157 | after the first record with an id is replaced, a search for that id returns the submitted record |
| Records.SearchAfterRemove | src/screens/usuario/index.tsx:185-192 | in a list with distinct ids, after the record at i is removed a search for its id finds nothing |
| Schema.RejectedAmong | src/screens/usuario/index.tsx:36-62 | among a list of fields, exactly those that break their own rule are reported |
| Schema.Rejected | src/screens/usuario/index.tsx:36-62 | a field is reported exactly when it breaks its own rule |
| Schema.Utf16Length | src/screens/usuario/index.tsx:40 | the length `.min` compares lies between the number of characters and twice that |
| Schema.Utf16LengthIsCountIffBmp | src/screens/usuario/index.tsx:40 | that length equals the number of characters exactly when no character lies outside the Basic Multilingual Plane |
| Schema.EmojiPairMeetsMinThree | src/screens/usuario/index.tsx:37-40 | two emoji, two characters but four UTF-16 units, satisfy a minimum of 3 |
| Schema.AcceptedMeans | src/screens/usuario/index.tsx:36-62 | a form is accepted iff, in UTF-16 units, nome has length at least 3, email at least 6, cep at least 3, numero at least 2, senha at least 3, and confirmaSenha equals senha |
| Schema.EnderecoAndIdUnconstrained | src/screens/usuario/index.tsx:36-62 | changing endereco or id never changes which fields are rejected |
| Schema.AppendKeepsAllAccepted | src/screens/usuario/index.tsx:100 | appending an accepted record to a list of accepted records leaves every record accepted |
| Schema.ReplaceKeepsAllAccepted | src/screens/usuario/index.tsx:152-153 | replacing a record by an accepted one leaves every record accepted |
| Schema.RemoveKeepsAllAccepted | src/screens/usuario/index.tsx:188 | removing a record leaves every remaining record accepted |
| Store.UsuarioStore.DbData | src/screens/usuario/index.tsx:97-98 | the records every handler reads: the stored array, or [] when the key is absent (the same read recurs at lines 119-122, 144-147 and 180-183) |
| Store.UsuarioStore.Register | src/screens/usuario/index.tsx:94-105 | the record gets the new id and the stored array becomes the old records (none if the key was absent) plus that record at the end: one longer, earlier elements unchanged; with an unused id, search finds it and distinct ids stay distinct |
| Store.UsuarioStore.Search | src/screens/usuario/index.tsx:116-133 | returns the record at the first position with the id, or nothing exactly when no record has it; an absent key finds nothing |
| Store.UsuarioStore.Alter | src/screens/usuario/index.tsx:141-164 | reports success exactly when some record has the id; then the stored array is the old one with its first such record replaced and a search returns the submitted record; otherwise the stored value is untouched; distinct ids stay distinct |
| Store.UsuarioStore.Delete | src/screens/usuario/index.tsx:177-201 | reports success exactly when some record has the id; then the stored array is the old one without its first such record, one shorter, and with distinct ids the id is no longer found; otherwise the stored value is untouched |

## Left out

- Schema.Rejected: does not model yup's `.email()` format test. That test is a library regular expression that is not part of this model. The model may accept a form the screen would reject for a malformed email.
- Schema.RejectedAmong: has the same gap: its Email rule checks only presence and a UTF-16 length of at least 6, not the `.email()` format, so a 6-unit email without '@' is not reported.
- Schema.AcceptedMeans: has the same gap, because the email format test is not modelled.
- Store.UsuarioStore.Search: returns the found record. It does not model the `setValue` loop that copies each of the record's keys into the form, or the `seacheID` and `loading` flags. Those are UI state.
- Store.UsuarioStore.Register: the identifier is a parameter. It is not generated by `uuid.v4()`, which is a foreign library. Uniqueness holds when that parameter is not already in use.
- The asynchronous `AsyncStorage.getItem`/`setItem` calls and `JSON.parse`/`JSON.stringify` are not modelled. The stored value is the parsed array. A stored value that is not a JSON array is not modelled, and neither is an empty string, which the code also reads as `[]`. None of these can be written by this screen.
- The `catch` branches are not modelled. They handle storage or parse failures, which are I/O.
- `reset()`, the toasts, `console.log`, `navigation.navigate` (`handleList`) and all rendering are left out. They are presentation with no effect on the stored records.
- The CEP lookup (`handleFindCep`, a `fetch` to an external address service) is left out. It is a network call.
- Two handlers overlapping in time could race on the read-modify-write. This concurrency is not modelled, and each handler runs alone.
- Records.Splice: models `splice` only for non-negative start and delete count, the only arguments the handlers pass. Negative, end-relative arguments are not modelled.
- `src/components/search/findCEP.tsx` and `src/components/search/styles.ts` are an icon and a style sheet with no logic. They are not part of this model.

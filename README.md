# offline-app-platlog, modelled in Dafny

The repository is a React Native checklist client for a distribution warehouse.
Checkers record delivery-note checks (Notas) and pallet checks (Paletes) for a
route, and send them to a remote service. When the device is offline, records
wait in two durable queues. The queues are replayed when connectivity returns
or when the user presses the sync button.

This project models the core of that client and proves properties of the model.

- **`OfflineSync`** (`offline_sync.dfy`) is the centre. It models the `useOfflineSync` hook:
  - A class `OfflineQueue` holds the two storage keys. Each key is `Absent`, `Valid(records)` or `Corrupt`.
  - It also holds the `isOnline` and syncing flags, and a trace of the submissions and removals its passes perform.
  - The drain pass is a pair of loops, one per record kind.
  - The remote service is an oracle, a script of steps. Each step says whether a create call was accepted. It also says which event arrived while the call was in flight: a NetInfo change or a sync-button press.
  - Those events re-enter the handlers, which is how the re-entrancy flag is exercised.
  - A pure function `Pass` specifies the pass. Lemmas about `Pass` state the ordering and clearing properties.
- **`Api`** (`api.dfy`) covers the pure decisions of the service layer:
  - `qs`, the query-string builder, with `encodeURIComponent` as a parameter;
  - `toISO` over integer date fields;
  - `assertOk`;
  - the status and body decision of `createNota`, and the error message `createPalete` shares with it.
- **`Home`** (`home.dfy`) computes the four counters of the Home screen's daily summary.
- **`ResumoDoDia`** (`resumo.dfy`) models the detailed day screen:
  - `brToISO` and the `diaFetch` choice;
  - the sorted distinct route list, a method with two loops followed by a sort;
  - the card badges;
  - a `Screen` class for `fetchAllOfDay`, `onSelectRota` and `fetchOfflineData`.
- **`PaletesForm`** (`paletes.dfy`) models the pallet form:
  - the payload;
  - the "sem bandeira" default;
  - the conflict classifier of submission errors;
  - a `Form` class for `onSubmit` and its partial reset.
- **`SyncStatus`** (`sync_status.dfy`) covers the status text and colour, and the sync button guard over a queue instance.
- **`TextPatch`** (`text_patch.dfy`) models `appendHairSpace`, which appends a hair space (U+200A) to the last string of a text's children.
- **`Auth`** (`auth.dfy`) models the session state over `@logged` and `@user`: `hydrate`, `login`, `logout` and `isLogged`.
- **Supporting modules:**
  - `Text` (`text.dfy`) gives the JavaScript string operations the source relies on: `trim` with the `\s` set, `toLowerCase`, `includes`, `String(n)`.
  - `Js` (`js.dfy`) gives the dynamically typed values the screens receive, with truthiness, `??`, `||`, property access and `String(v)`.
  - `Records` (`records.dfy`) holds the two payload types.

Two behaviours of the code are worth stating, because a reader might expect otherwise:

- **A save onto unparsable data.** `JSON.parse` throws inside the save's `try`, so the record is dropped and the stored text is kept (`src/hooks/useOfflineSync.tsx:93-99`).
- **Malformed stored Notas.** The count and list accessors return their defaults. The drain pass, however, aborts: `offline_notas` is kept and no Palete is submitted (`src/hooks/useOfflineSync.tsx:41-43, 70-71`).

A key holding `[]` is still removed by a pass, because the text `"[]"` is truthy.

## Model

| member | source | states |
|---|---|---|
| `OfflineSync.Listed` | src/hooks/useOfflineSync.tsx:140-158 | what a key holds as a list: the stored array, or `[]` when the key is absent or does not parse |
| `OfflineSync.Connected` | src/hooks/useOfflineSync.tsx:80 | `state.isConnected ?? false`: online exactly when NetInfo reports `true`; `false` and an unknown state are offline |
| `OfflineSync.Saved` | src/hooks/useOfflineSync.tsx:91-99 | one save: an absent key becomes `[x]`, a stored array gets `x` at its end, and a failed write or unparsable text leaves the key as it was |
| `OfflineSync.SavesAppendInOrder` | src/hooks/useOfflineSync.tsx:91-111 | after any sequence of saves onto readable data, the stored queue is the old queue followed by exactly the records whose write succeeded, in call order; earlier elements never change |
| `OfflineSync.SaveFailureDropsRecord` | src/hooks/useOfflineSync.tsx:92-99 | a failed write, or a save onto unparsable data, leaves the stored value as it was and the record is lost |
| `OfflineSync.OfflineCount` | src/hooks/useOfflineSync.tsx:119-137 | `total` is always `notas + paletes`; an unreadable key makes all three 0 |
| `OfflineSync.SaveCounts` | src/hooks/useOfflineSync.tsx:91-137 | a successful save of a Nota adds exactly one to `notas` and `total` and leaves `paletes`; otherwise the count is unchanged |
| `OfflineSync.Pass` | src/hooks/useOfflineSync.tsx:40-71 | one drain pass over the two keys and the oracle: a submission per stored Nota, the removal of `offline_notas`, then the same for the Paletes; unparsable Notas end the pass at once, unparsable Paletes after the Notas |
| `OfflineSync.EachRecordSubmittedOnceInOrder` | src/hooks/useOfflineSync.tsx:40-69 | a pass submits every stored Nota and then every stored Palete, each exactly once and in stored order, and nothing else; unparsable Notas mean nothing is submitted and unparsable Paletes mean only the Notas are; one oracle step per submission |
| `OfflineSync.NotasBeforePaletes` | src/hooks/useOfflineSync.tsx:41-68 | in a pass's effects, every Nota submission and the removal of `offline_notas` come before every Palete submission |
| `OfflineSync.PassClearsOrAborts` | src/hooks/useOfflineSync.tsx:40-71 | a key that held an array is removed whatever the outcomes, so failed records are not retried; unparsable Notas stay stored and Paletes are untouched; after a clean pass the count is 0 |
| `OfflineSync.PassIdempotent` | src/hooks/useOfflineSync.tsx:42-68 | with both keys absent a pass does nothing; keys holding `[]` are still removed; a second pass right after a first changes nothing |
| `OfflineSync.OfflineQueue.constructor` | src/hooks/useOfflineSync.tsx:30-32 | a fresh hook is online, not syncing, with an empty trace, over what storage already holds |
| `OfflineSync.OfflineQueue.SaveNotaOffline` | src/hooks/useOfflineSync.tsx:91-100 | `offline_notas` becomes `Saved(old, nota, writeOk)`, so it is `old ++ [nota]`, `[nota]` when absent, or unchanged on failure; nothing else changes |
| `OfflineSync.OfflineQueue.SavePaleteOffline` | src/hooks/useOfflineSync.tsx:102-111 | the same for `offline_paletes` |
| `OfflineSync.OfflineQueue.SyncOfflineData` | src/hooks/useOfflineSync.tsx:34-76 | a call during a pass returns at once and touches nothing; otherwise exactly one pass runs, so storage, trace and `isOnline` are what `Pass` and the oracle's events say, and the flag is false again on every exit |
| `OfflineSync.OfflineQueue.DrainNotas` | src/hooks/useOfflineSync.tsx:41-54 | the Nota loop appends one submission per stored Nota, in order, then the removal of the key; the flag stays raised |
| `OfflineSync.OfflineQueue.DrainPaletes` | src/hooks/useOfflineSync.tsx:56-69 | the Palete loop does the same, using the oracle from the step after the last Nota |
| `OfflineSync.OfflineQueue.Submit` | src/hooks/useOfflineSync.tsx:45-51 | one awaited create call: a failure is swallowed and recorded, storage is untouched, and an event arriving meanwhile only updates `isOnline` |
| `OfflineSync.OfflineQueue.Deliver` | src/hooks/useOfflineSync.tsx:78-117 | a NetInfo change or a sync press during a pass starts no second pass and changes nothing but `isOnline` |
| `OfflineSync.OfflineQueue.OnNetInfo` | src/hooks/useOfflineSync.tsx:79-86 | `isOnline` becomes `isConnected ?? false`; a pass starts exactly when connected and no pass is running |
| `OfflineSync.OfflineQueue.ForceSync` | src/hooks/useOfflineSync.tsx:113-117 | a pass starts exactly when online and no pass is running; otherwise nothing changes |
| `OfflineSync.OfflineQueue.GetOfflineCount` | src/hooks/useOfflineSync.tsx:119-138 | returns `OfflineCount` of the current keys and changes nothing |
| `OfflineSync.OfflineQueue.GetOfflineNotas` | src/hooks/useOfflineSync.tsx:140-148 | returns the stored Notas, or `[]` when absent or unreadable |
| `OfflineSync.OfflineQueue.GetOfflinePaletes` | src/hooks/useOfflineSync.tsx:150-158 | returns the stored Paletes, or `[]` when absent or unreadable |
| `Api.KeptParams` | src/services/api.ts:52-53 | the filter of `qs`: the entries whose value is not `undefined`, `null` or `""`, in their original order |
| `Api.KeptParamsMembers` | src/services/api.ts:52-53 | `qs` keeps exactly the entries whose value is not `undefined`, `null` or `""`; `0` and `false` are kept |
| `Api.KeptParamsAppend` | src/services/api.ts:52-53 | the filter keeps entry order |
| `Api.Pair` | src/services/api.ts:55 | one query entry: the encoded key, `=`, and the encoded `String(v)` of the value |
| `Api.Response.Ok` | src/services/api.ts:39 | `res.ok`: the status is in 200-299 |
| `Api.Qs` | src/services/api.ts:51-59 | the result is `""` exactly when no entry is kept; otherwise it is `?` followed by the kept pairs `enc(k)=enc(String(v))` joined by `&` |
| `Api.QsSplitsIntoPairs` | src/services/api.ts:51-59 | with an encoder that never emits `&` or `=`, the query splits back into exactly the kept pairs, and each pair into its encoded key and value |
| `Api.Pad2` | src/services/api.ts:142-143 | `padStart(2, "0")`: a string shorter than two characters gets leading zeros up to two |
| `Api.ToISO` | src/services/api.ts:140-145 | `toISO` over the year, month index and day: `y-mm-dd` with the month index plus one |
| `Api.Pad2Number` | src/services/api.ts:142-143 | `padStart(2, "0")` of a number from 1 to 99 is two digits that read back as the number |
| `Api.ToISOFields` | src/services/api.ts:140-145 | `toISO` is the unpadded year, `-`, the two-digit month index + 1, `-`, the two-digit day, and the three fields read back as the inputs |
| `Api.AssertOk` | src/services/api.ts:38-42 | fails exactly when the status is outside 200-299 |
| `Api.AssertOkNamesStatus` | src/services/api.ts:38-42 | the failure message is `HTTP <status>: <statusText>`, its number reading back as the status |
| `Api.HttpErrorMessage` | src/services/api.ts:93-95 | a failed create call's message is never empty: the body text when that is non-empty, otherwise `Erro <status>: <statusText>` |
| `Api.CreateNotaOutcome` | src/services/api.ts:93-101 | `createNota` once the response is in: a rejection with `HttpErrorMessage` when the status is not 2xx, otherwise the parsed body, or `{success: true}` where `JSON.parse` throws |
| `Api.CreateNotaAgreesWithAssertOk` | src/services/api.ts:86-102 | `createNota` rejects on exactly the responses `assertOk` rejects, with the body or `Erro <status>: <statusText>`; on success it returns the parsed body, or `{success: true}` exactly when the body is not JSON |
| `Js.Truthy` | src/hooks/useOfflineSync.tsx:41 | JavaScript truthiness: false exactly for `undefined`, `null`, `false`, `0` and `""`; every array and object is truthy |
| `Js.Readable` | src/screens/Home/index.tsx:38 | a property can be read exactly when the value is neither `null` nor `undefined`; otherwise the read throws |
| `Js.Prop` | src/screens/ResumoDoDia/index.tsx:143 | `v.key`: the property of an object, `undefined` when it is missing or `v` is not an object |
| `Js.OptProp` | src/screens/Paletes/index.tsx:97 | `v?.key`: `undefined` on `null` or `undefined`, otherwise `v.key` |
| `Js.ArrayOrEmpty` | src/screens/Home/index.tsx:32-33 | `Array.isArray(x) ? x : []`: the elements of an array, the empty list for any other value |
| `Js.ToString` | src/services/api.ts:55 | `String(v)`: `undefined`, `null`, `true`/`false`, the decimal integer, the string itself, arrays joined with commas with blank `null`/`undefined` elements, and `[object Object]` for objects |
| `Js.Coalesce` | src/screens/Paletes/index.tsx:73 | `v ?? d`: `d` exactly when `v` is `null` or `undefined`, `v` otherwise |
| `Js.Or` | src/screens/ResumoDoDia/index.tsx:218 | JavaScript's logical OR of `v` and `d`: `v` when it is truthy, `d` otherwise |
| `Js.CoalesceVersusOr` | src/screens/ResumoDoDia/index.tsx:218-219 | nullish coalescing and logical OR agree on `null`, `undefined` and truthy values; only logical OR replaces `false`, `0` and `""` |
| `Js.TrimmedNonEmpty` | src/screens/ResumoDoDia/index.tsx:219 | `(v ?? "").toString().trim() !== ""`, the test for a checked record |
| `Js.TrimmedNonEmptyString` | src/screens/Home/index.tsx:38 | the shared "conferida" rule holds for a string exactly when it has a non-whitespace character, and never for a missing field |
| `Text.IsSpace` | src/screens/Paletes/index.tsx:82-83 | the `\s` class that `trim()` strips: tab, line feed, vertical tab, form feed, carriage return, space, no-break space, the Unicode space separators, the line and paragraph separators and the byte order mark |
| `Text.Trim` | src/screens/Paletes/index.tsx:82-83 | `trim()`: the string without its leading and trailing `\s` characters |
| `Text.TrimEmptyIff` | src/screens/Home/index.tsx:38 | `trim()` gives `""` exactly when every character is whitespace |
| `Text.TrimIdempotent` | src/screens/Paletes/index.tsx:82-83 | a trimmed string starts and ends with non-whitespace, and trimming again changes nothing |
| `Text.Contains` | src/screens/Paletes/index.tsx:108-109 | `includes`: the word is a prefix of the string or of one of its suffixes |
| `Text.ContainsIff` | src/screens/Paletes/index.tsx:108-109 | `includes` holds exactly when the word occurs at some position |
| `Text.ParseIntToString` | src/services/api.ts:40 | `String(n)` of an integer reads back as the integer |
| `Text.NatToString` | src/services/api.ts:142-143 | `String(n)` of a non-negative integer: at least one digit, only digits, no leading zero, and one digit exactly below 10 |
| `Text.IntToString` | src/services/api.ts:40 | `String(i)` of an integer: a minus sign before the digits of the magnitude when negative |
| `Text.ToLower` | src/screens/Paletes/index.tsx:108-109 | `toLowerCase()`: same length, each character mapped by `LowerChar` |
| `Text.LowerChar` | src/screens/Paletes/index.tsx:108-109 | the per-character map of `toLowerCase`: `A`-`Z` and the Latin-1 capitals U+00C0-U+00DE except U+00D7 move up by 32, every other character is kept |
| `Home.IsAvaria` | src/screens/Home/index.tsx:42 | `isAvaria`: strictly `'sim'`, `true` or `1` |
| `Home.NotaConferida` | src/screens/Home/index.tsx:38 | a Nota is checked when `(conferidoPor ?? '').toString().trim()` is not empty |
| `Home.PaleteConferido` | src/screens/Home/index.tsx:39 | a Palete is checked when `conferido` is `'sim'` or `true` |
| `Home.NotaComAvaria` | src/screens/Home/index.tsx:43 | a Nota is damaged when `avaria` passes `isAvaria` or `avarias` is a non-empty array |
| `Home.PaleteComAvaria` | src/screens/Home/index.tsx:44 | a Palete is damaged when `avaria` passes `isAvaria` |
| `Home.CountWhere` | src/screens/Home/index.tsx:38-45 | a `filter(...).length` is at most the list length |
| `Home.CountWhereAppend` | src/screens/Home/index.tsx:38-45 | the count adds up over concatenation and counts one element by the predicate, so it is the number of matching elements |
| `Home.CountWhereAll` | src/screens/Home/index.tsx:38-40 | the count equals the length exactly when every element matches |
| `Home.Summary` | src/screens/Home/index.tsx:24-53 | `itensConferidos` and `totalAvarias` are each at most `totalNotas + totalPaletes`; a failed fetch resets all four counters to 0 |
| `Home.Refresh` | src/screens/Home/index.tsx:24-79 | the counters after a pull-to-refresh: `onRefresh` (lines 72-79) awaits `fetchResumoPorData` (lines 24-46) inside `try/finally` with no `catch`, so a failed request sets nothing, and a `null` element sets only the two totals |
| `Home.RefreshVersusSummary` | src/screens/Home/index.tsx:24-79 | a refresh agrees with the mount path exactly on a successful fetch of readable elements; otherwise the mount path zeroes all four counters while the refresh keeps the previous checked and damage counters, and after a failed request all four |
| `Home.SummaryTotals` | src/screens/Home/index.tsx:32-36 | non-array responses count as empty lists; the totals are the list lengths |
| `Home.AllConferidos` | src/screens/Home/index.tsx:38-40 | every item counts as checked exactly when every Nota has a non-blank `conferidoPor` and every Palete has `conferido` equal to `'sim'` or `true` |
| `ResumoDoDia.BrShape` | src/screens/ResumoDoDia/index.tsx:47 | the anchored `dd/mm/yyyy` regex: ten characters, slashes at positions 2 and 5, and digits in the three groups |
| `ResumoDoDia.BrToISO` | src/screens/ResumoDoDia/index.tsx:45-51 | `brToISO`: `undefined` for a missing or empty input or one not of the form `dd/mm/yyyy`, otherwise the fields reordered to `yyyy-mm-dd` |
| `ResumoDoDia.BrToISOFields` | src/screens/ResumoDoDia/index.tsx:45-51 | `dd/mm/yyyy` of digit groups becomes `yyyy-mm-dd` with the same groups and no range check |
| `ResumoDoDia.BrToISODefined` | src/screens/ResumoDoDia/index.tsx:45-51 | `brToISO` is defined exactly on strings of the shape; anything else, `""` included, gives `undefined` |
| `ResumoDoDia.BrToISOAgreesWithToISO` | src/screens/ResumoDoDia/index.tsx:45-51 | a four-digit-year date written `dd/mm/yyyy` converts to what `toISO` gives for the same date |
| `ResumoDoDia.DiaFetch` | src/screens/ResumoDoDia/index.tsx:60 | `diaISO` when present and non-empty, else `brToISO(data)`; never an empty date |
| `ResumoDoDia.RouteOf` | src/screens/ResumoDoDia/index.tsx:139-144 | a record's route: `numeroRota` when it is a number, none otherwise (also for `null` records) |
| `ResumoDoDia.RoutesMembers` | src/screens/ResumoDoDia/index.tsx:139-144 | a route number is collected exactly when some record has it as a numeric `numeroRota` |
| `ResumoDoDia.InsertSorted` | src/screens/ResumoDoDia/index.tsx:145 | inserting a new number into a strictly increasing list keeps it strictly increasing, with exactly one more element |
| `ResumoDoDia.SortAscending` | src/screens/ResumoDoDia/index.tsx:145 | sorting distinct numbers gives a strictly increasing list with the same elements |
| `ResumoDoDia.StrictlyIncreasingUnique` | src/screens/ResumoDoDia/index.tsx:137-146 | a strictly increasing list is determined by its elements, so the route list does not depend on record order |
| `ResumoDoDia.Rotas` | src/screens/ResumoDoDia/index.tsx:137-146 | the route list holds each numeric `numeroRota` of either list exactly once, strictly ascending |
| `ResumoDoDia.SimBadge` | src/screens/ResumoDoDia/index.tsx:321-324 | a badge lights when the value, or `""` when it is falsy, printed and lower-cased is `sim` |
| `ResumoDoDia.SimBadgeString` | src/screens/ResumoDoDia/index.tsx:321-324 | the Avaria, Remontado and Conferido badges light exactly for `sim` in any letter case; never for booleans or missing fields |
| `ResumoDoDia.SimBadgeOfStoredFlag` | src/screens/ResumoDoDia/index.tsx:265-266 | for the offline records' `sim`/`nao` flags, the badge lights exactly for `sim` |
| `ResumoDoDia.Screen.constructor` | src/screens/ResumoDoDia/index.tsx:60-76 | the screen fixes `diaFetch` and starts empty, unfiltered and not loading |
| `ResumoDoDia.Screen.FetchOfflineData` | src/screens/ResumoDoDia/index.tsx:78-91 | the offline panel shows the queue's count and lists; nothing else changes |
| `ResumoDoDia.Screen.FetchAllOfDay` | src/screens/ResumoDoDia/index.tsx:93-128 | without a date, the lists empty and `Data inválida para busca` and no request; on success, full and shown lists are the arrays (non-arrays as empty), the filter clears and the offline panel refreshes; on failure, lists empty with the error or `Falha ao carregar`; `loading` false after a request; a missing date or a failure hides the "Nenhum registro" line, and after a success it shows exactly when both lists are empty and nothing waits offline |
| `ResumoDoDia.Screen.SelectRota` | src/screens/ResumoDoDia/index.tsx:148-172 | the selection is recorded; `null` restores the full lists without a request; a route shows the filtered lists, or empty lists with the error or `Falha ao filtrar rota N`; full lists never change; a failed filter hides the "Nenhum registro" line |
| `ResumoDoDia.Screen.ShowsEmptyDay` | src/screens/ResumoDoDia/index.tsx:410-414 | the "Nenhum registro" line shows when nothing is loading, both lists are empty, no record waits offline and there is no error |
| `PaletesForm.NumeroPallet` | src/screens/Paletes/index.tsx:81-84 | `numeroPallet`: a present, non-empty input whose trim is not empty gives that trim, anything else `sem bandeira` |
| `PaletesForm.NumeroPalletCases` | src/screens/Paletes/index.tsx:81-84 | the number is never empty; it is the trimmed input exactly when that trim is non-blank, and `sem bandeira` for a missing or blank input |
| `PaletesForm.NumeroPalletNormal` | src/screens/Paletes/index.tsx:81-84 | the pallet number has no surrounding whitespace, and using it as the input again gives the same number |
| `PaletesForm.Flag` | src/screens/Paletes/index.tsx:91-92 | `true` is sent as `sim`, `false` as `nao` |
| `PaletesForm.BuildPayload` | src/screens/Paletes/index.tsx:86-93 | the payload has exactly the route, the pallet number rule, the type and both flags; no date |
| `PaletesForm.BuildPayloadInjective` | src/screens/Paletes/index.tsx:86-93 | two submissions give the same payload exactly when they agree on every sent field |
| `PaletesForm.IsConflict` | src/screens/Paletes/index.tsx:106-110 | the lowercased message contains `conflito` or `já existe` |
| `PaletesForm.ClassifyError` | src/screens/Paletes/index.tsx:106-114 | the conflict alert exactly when the lowercased message contains `conflito` or `já existe`; otherwise an error with the message, or `Falha ao salvar palete` when it is empty |
| `PaletesForm.ConflictAnywhere` | src/screens/Paletes/index.tsx:106-110 | the classification ignores letter case, and a conflict word anywhere in a longer message still counts |
| `PaletesForm.HttpFailureAlert` | src/services/api.ts:122-124 | a rejected `createPalete` always has a message, so its alert is the conflict warning or that message |
| `PaletesForm.SuccessAlert` | src/screens/Paletes/index.tsx:97 | the `Sucesso` alert naming `saved?.numeroPallet` of the returned record |
| `PaletesForm.OutcomeAlert` | src/screens/Paletes/index.tsx:95-114 | the alert for the outcome of `createPalete`: the success alert, or `ClassifyError` of the rejection's message |
| `PaletesForm.OutcomeAlertTitle` | src/screens/Paletes/index.tsx:95-114 | only a success is titled `Sucesso`; a failure with a message is the conflict alert or shows the message |
| `PaletesForm.Form.constructor` | src/screens/Paletes/index.tsx:50-63 | the default values: route 0, empty number and type, both switches off, nothing submitting |
| `PaletesForm.Form.ChooseTipologia` | src/screens/Paletes/index.tsx:71-74 | the drop-down's choice is mirrored into `tipologia`, `''` for none |
| `PaletesForm.Form.OnSubmit` | src/screens/Paletes/index.tsx:76-118 | one payload is sent from the form as it was; a success clears number, switches and type and keeps the route; a failure leaves the form; `submitting` is false on both paths |
| `PaletesForm.Form.PartialReset` | src/screens/Paletes/index.tsx:99-104 | clears the pallet number, both switches, the drop-down and the type; route, alert and sent payloads unchanged |
| `SyncStatus.BranchOf` | src/components/SyncStatus.tsx:30-43 | offline exactly when not online; syncing exactly when online and syncing; pending exactly when online, idle and total > 0 |
| `SyncStatus.StatusText` | src/components/SyncStatus.tsx:30-36 | `getStatusText` along `BranchOf`: `Offline`, `Sincronizando...`, `<total> item(s) pendente(s)` or `Sincronizado` |
| `SyncStatus.StatusColor` | src/components/SyncStatus.tsx:38-43 | `getStatusColor` along the same branches |
| `SyncStatus.StatusPriority` | src/components/SyncStatus.tsx:30-36 | `Offline` whatever the other inputs; online and syncing gives `Sincronizando...` |
| `SyncStatus.PendingTextNamesCount` | src/components/SyncStatus.tsx:33-34 | the pending text is the count followed by ` item(s) pendente(s)` |
| `SyncStatus.ColourFollowsText` | src/components/SyncStatus.tsx:30-43 | one colour per branch, and equal texts give equal colours |
| `SyncStatus.ShouldForceSync` | src/components/SyncStatus.tsx:45-49 | the guard of `handleSyncPress`: online, not syncing and a positive total |
| `SyncStatus.ForceSyncIffPending` | src/components/SyncStatus.tsx:45-49 | the press guard holds exactly when the status shows pending work |
| `SyncStatus.HandleSyncPress` | src/components/SyncStatus.tsx:45-49 | a pass runs exactly when online, not syncing and total > 0; otherwise the queue is untouched |
| `TextPatch.EndsWithSpace` | src/utils/textPatch.tsx:24 | `/\s$/.test(s)`: the string is non-empty and its last character is in the `\s` class |
| `TextPatch.AppendHairSpace` | src/utils/textPatch.tsx:21-36 | `appendHairSpace`: strings get a hair space unless they end in `\s`; arrays have their last element patched, and come back as they are when it did not change; anything else is returned as it is |
| `TextPatch.AppendHairSpaceString` | src/utils/textPatch.tsx:22-25 | a string not ending in whitespace gets one hair space; one that does is returned as it is; `""` becomes a lone hair space |
| `TextPatch.AppendHairSpaceShape` | src/utils/textPatch.tsx:21-36 | non-string, non-array and empty-array children are returned as they are; arrays keep their length and all but the last element; patchable children end in whitespace after at most one added hair space |
| `TextPatch.AppendHairSpaceIdempotent` | src/utils/textPatch.tsx:21-36 | applying the transformer twice is applying it once |
| `Auth.HydrateOutcome` | src/context/AuthContext.tsx:20-31 | a user is set exactly when `@logged` is `'true'` and `@user` holds a user; the parse throws exactly when the flag is `'true'` and `@user` is unparsable; otherwise the user is null |
| `Auth.Session.constructor` | src/context/AuthContext.tsx:17-18 | the provider starts with no user and `loading` true |
| `Auth.Session.Hydrate` | src/context/AuthContext.tsx:20-31 | the user follows `HydrateOutcome`; a throw leaves it unchanged; `loading` is false on every exit |
| `Auth.Session.Login` | src/context/AuthContext.tsx:37-41 | stores `'true'` and the user in turn, then sets the user; a failed write stops there; after both writes a hydrate would restore the user |
| `Auth.Session.Logout` | src/context/AuthContext.tsx:43-46 | removes both keys and clears the user; afterwards a hydrate yields no user |
| `Auth.Session.IsLogged` | src/context/AuthContext.tsx:49 | `isLogged` is `!!user` |
| `Auth.LoginSurvivesHydrate` | src/context/AuthContext.tsx:20-41 | after `login(u)` and a later `hydrate`, the user is `u` and `isLogged` holds |
| `Auth.LogoutSurvivesHydrate` | src/context/AuthContext.tsx:20-46 | after `logout` and a later `hydrate`, there is no user and `isLogged` is false |

## Left out

- Network I/O is not modelled: `fetchWithTimeout` and its abort timer, `listNotas`, `listPaletes`, `listUsers` and `getUserByEmail`. Responses and outcomes are parameters: the queue's oracle script, `Fetched`, `Api.Response` with its body text.
- `createPalete`'s return value is not modelled. It reads the body a second time, so it depends on Fetch body semantics; the Paletes form takes the saved record as a parameter.
- The NetInfo subscription and unsubscription are left out; connectivity changes are calls of `OnNetInfo`.
- OfflineSync.OfflineQueue.SyncOfflineData: it does not model a save, or a list or count read, interleaving with a running pass at its `await` points. The only events it models during a pass are connectivity changes and sync presses, at most one per submission.
- OfflineSync.OfflineQueue: the re-entrancy flag is per hook instance. `SyncStatus` and `ResumoDoDia` each create their own instance, so no process-wide exclusion is claimed.
- Auth.HydrateOutcome: `@user` text that parses to a JSON value other than a user object, such as `null` or `123`, is not represented. `StoredUser` has no case for it, so every parsed value is treated as a user; the source would set `user` to that value, and `isLogged` would follow its truthiness.
- JSON encoding of stored values is abstracted to `Absent | Valid | Corrupt` and, for `@user`, to `StoredUser`. A stored JSON value that parses but is not an array is not modelled.
- Storage failures are modelled for the write of a save, the writes of `login`, the removal of `logout` and the reads of `hydrate`. A failed read in the queue behaves like `Corrupt`.
- OfflineSync.Pass: a failed `removeItem` inside a pass is not modelled. In the source it rejects into the pass's outer `catch` (src/hooks/useOfflineSync.tsx:70-71). A failed removal of `offline_notas` would therefore keep that key, every one of its records would be sent again on the next pass, and no Palete would be sent in this pass; a failed removal of `offline_paletes` would keep the Paletes for a second submission.
- Numbers are integers. Floating-point values, `NaN` (which `typeof` also calls a number in the route list) and `Number(t)` of non-numeric input are not represented.
- `toLowerCase` is modelled for ASCII and Latin-1 letters only. No other character lower-cases to the single letters of `sim`, `conflito` or `já existe`.
- `encodeURIComponent` is a parameter `enc`; its escaping is not modelled.
- `Date` getters, `toBR` and `toLocaleDateString` are left out; `toISO` takes the year, month index and day as integers.
- The `Text.render` monkey patch of `src/utils/textPatch.tsx` is left out: style flattening, `Math.ceil(fontSize * 1.2)` and the Android platform check. Only `appendHairSpace` is modelled.
- `src/utils/textDefaults.tsx` and the Notas screen (a form-schema library and a logging submit) are not part of this model.
- The form schemas' validation (a library) is not modelled. `OnSubmit` takes any form values.
- Rendering, styles, navigation, the Login, Register and AppHeader screens, `withHairSpaces` and `console` logging are left out.
- Home.Summary: the counters are computed from one response pair on the mount and focus paths, whose handlers zero all four. The focus handler's `isActive` guard against a failure after the screen lost focus is not modelled.
- Home.Refresh: the unhandled rejection a failed pull-to-refresh leaves behind, and the `refreshing` flag, are not modelled; only the counters it leaves are.

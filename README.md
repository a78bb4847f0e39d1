# Room-key custody backend, modelled in Dafny

The system is a Flask REST service that keeps custody of room keys. It stores:

- rooms (`tb_sala`);
- keys (`tb_chave`), each of which opens one room;
- responsáveis, the people who may take keys;
- reservations (`tb_reserva`) of a room by a responsável, with weekday rows (`tb_reserva_dia`);
- checkouts (`tb_retirada`): a key handed to a responsável, optionally under a reservation.

Each request validates its JSON body with a marshmallow schema. It then runs a chain of guards, and either commits all of its writes or none of them. This project models that core:

- the schema rules, including the cross-field validator of reservations;
- the reservation conflict query;
- the reservation, checkout, room, key and responsável endpoints, as steps on one store;
- the returned-checkout history query.

Layout:

- `calendar.dfy` (`Calendar`): dates, minute-resolution clock times, `toordinal`, `isoweekday`, and the ten-minute subtraction that wraps past midnight.
- `schema.dfy`:
  - `Schema`: one JSON member (missing, null or given), a load outcome, and the required/null/validator rules.
  - `Http`: the responses.
- `sala_model.dfy`, `chave_model.dfy`, `responsavel_model.dfy`, `reserva_model.dfy`, `reserva_dia_model.dfy`, `retirada_model.dfy`: the rows and their schemas.
- `store.dfy` (`Store`): the `Database` class, with one map per table, the id sequences and the store invariant `Valid`. `Valid` says that ids come from the sequences, that rows are well formed, and that every foreign key names a stored row.
- `sala_resource.dfy`, `chave_resource.dfy`, `responsavel_resource.dfy`, `reserva_resource.dfy`, `retirada_resource.dfy`: the endpoints. Each is a method on the `Database` that returns the HTTP outcome. Each refusal leaves the store unchanged.
- `historico_resource.dfy`: the history listing and lookup, as functions over the tables.

The clock (`date.today()`, `datetime.now()`) is passed in as the parameters `today` and `now`.

Where the code and the written description of the system differ, the model follows the code:

- Creating a checkout stores the submitted status. It does not force `retirada`.
- The rule "a returned checkout has a return time, any other has none" is written in `validate_retirada`. That function is never registered with the schema, so nothing enforces the rule. It is modelled on its own as `RetiradaModel.ValidateRetirada`.
- A delete whose parent row is still referenced by a NOT NULL column ends in 500, even though the room, key and responsável delete handlers check nothing of the kind. The ORM clears the child's column, and the commit fails on any database. Deleting a reservation clears the nullable `reserva_id` of its checkouts instead.
- The tables declare foreign keys. The model assumes a database that enforces them at commit. The source names no database driver, so this is an assumption and not something the code establishes. Only one outcome rests on it: `PutReserva`'s 500 when the merged room or responsável does not exist (see `## Left out`). Every other write checks its references itself before committing. Under the assumption, `Store.Database.Valid` holds after every request, so no reference is ever left dangling.
- Because references always resolve, the places where the checkout handlers would dereference a missing key or room cannot be reached. The model has no branch for them.

## Model

| member | source | states |
|---|---|---|
| Calendar.IsoWeekday | models/TB_Reserva.py:207-208 | `weekday()+1` lies in 1..7 and agrees with the ordinal modulo 7, so it is fixed for every day of the week: 1 exactly for Mondays |
| Calendar.TenMinutesBefore | resources/TB_RetiradaResource.py:108-110 | the earliest checkout time is ten minutes earlier, modulo a day: it wraps to 23:5x for a start before 00:10 |
| SalaModel.LoadSala | models/TB_Sala.py:24-39 | the load succeeds iff `sala_nome` (length 2..255) and `disponivel` are acceptable; a full load requires both, a partial one only checks supplied members; a rejection names exactly the failing fields |
| SalaModel.NewSala | models/TB_Sala.py:16-18 | a stored room has exactly the loaded name and flag, and a valid name |
| SalaModel.ApplySalaChangesOnlySupplied | resources/TB_SalaResource.py:147-148 | the `setattr` loop changes exactly the supplied fields; an empty patch is the identity |
| ChaveModel.LoadChave | models/TB_Chave.py:31-54 | load succeeds iff each member is acceptable; a rejection names exactly the failing fields, so a `sala_id` ≤ 0 is always reported under `sala_id` |
| ChaveModel.NewChave | models/TB_Chave.py:21-24 | the stored key has exactly the loaded name, room and flag |
| ChaveModel.ApplyChaveChangesOnlySupplied | resources/TB_ChaveResource.py:155-156 | the update changes exactly the supplied fields and keeps the key well formed |
| ResponsavelModel.ApplyResponsavelChangesOnlySupplied | resources/TB_ResponsavelResource.py:196-197 | each of the five fields takes the supplied value or keeps the stored one; an empty patch is the identity |
| ReservaModel.ParseFrequencia | models/TB_Reserva.py:127-138 | only the four frequency names are accepted, each to its own member |
| ReservaModel.ParseFrequenciaRoundTrip | models/TB_Reserva.py:127-138 | parsing the stored name of a frequency gives it back |
| ReservaModel.ParseStatusRoundTrip | models/TB_Reserva.py:140-146 | parsing the stored name of a reservation status gives it back |
| ReservaModel.DatasHorasError | models/TB_Reserva.py:160-216 | `validate_datas_horas` reports nothing iff every rule whose fields are present holds; a report names one of `data_fim`, `data_inicio`, `hora_inicio`, `hora_fim`, `dias_semana` |
| ReservaModel.LoadReserva | models/TB_Reserva.py:71-216 | loads iff no field rule fails and the cross-field rules hold; field errors are reported together, otherwise exactly one cross-field error; a loaded dict is exactly the supplied members, satisfies every rule and, on a full load, has every required member |
| ReservaModel.NewReserva | models/TB_Reserva.py:41-60 | the record holds exactly the loaded columns and no day rows |
| ReservaModel.UnicaLoadedHasOneDay | models/TB_Reserva.py:172-176 | a loaded single reservation with both dates has them equal |
| ReservaModel.LoadedStartNotPast | models/TB_Reserva.py:178-186 | a loaded start date is not in the past, and on today the start time is after now |
| ReservaModel.RecurringLoadedHasStartWeekday | models/TB_Reserva.py:199-216 | a loaded weekly or fortnightly reservation has a non-empty day list that holds its start date's weekday |
| ReservaModel.PartialLoadChecksOnlySupplied | models/TB_Reserva.py:162-167 | a partial load does not cross-check against stored values: a body with only an end time and a monthly frequency loads, whatever the time |
| ReservaDiaModel.ReservaDiaErrors | models/TB_ReservaDia.py:23-42 | `dia_semana` is accepted iff in 1..7 and `reserva_id` iff positive (both required on a full load) |
| ReservaDiaModel.DayRows | models/TB_ReservaDia.py:13-42 | the rows stored for a reservation: one per weekday entry, each pointing at that reservation; under a database id, every row of a well-formed reservation passes the row schema |
| RetiradaModel.ParseStatusRoundTrip | models/TB_Retirada.py:125-131 | parsing the stored name of a checkout status gives it back |
| RetiradaModel.LoadRetirada | models/TB_Retirada.py:63-131 | the load succeeds iff no field rule fails; `reserva_id` may be null or missing, and is positive when given |
| RetiradaModel.NewRetirada | models/TB_Retirada.py:35-56 | the stored checkout holds every loaded column: key, responsável, reservation, date, the three times and the submitted status, unforced |
| RetiradaModel.ZeroReservaIdRejected | models/TB_Retirada.py:30-32 | a `reserva_id` of 0 never loads, so the handler's 0→None step never fires |
| RetiradaModel.ValidateRetirada | models/TB_Retirada.py:134-211 | the field it reports is one of the five validated fields; the status rule is checked first (`status` reported iff a full load's status is not `retirada`), then the date rule (`data_retirada` reported iff the status rule holds and the date is not today) |
| RetiradaModel.ValidateRetiradaMeaning | models/TB_Retirada.py:134-211 | passing `validate_retirada` holds exactly when all of its rules hold: a full load has status `retirada` and no return time; the date is today; the time is at most 5 minutes past; the expected return is after the checkout and the actual return not before it; `devolvida` iff a return time is present |
| RetiradaModel.DeadChecksNeverDecide | models/TB_Retirada.py:152-177 | the future-date check and the 10-minute check never change the outcome |
| Store.Database.Valid | models/TB_Retirada.py:38-44 | defines the store invariant: ids below the sequences, rows well formed, every foreign key resolving; every endpoint method ensures it is kept |
| Store.OrderedIdsListsTable | resources/TB_ResponsavelResource.py:64 | the id-ordered listing of a table is strictly ascending and holds exactly its ids |
| SalaResource.GetSala | resources/TB_SalaResource.py:112-115 | the room, or 404 exactly when it is absent |
| SalaResource.PostSala | resources/TB_SalaResource.py:62-77 | 422 with the error fields and no change, or 201 with a fresh id holding exactly the submitted name and flag; the store stays valid |
| SalaResource.PutSala | resources/TB_SalaResource.py:140-150 | 404 before the load, then 422, else only the supplied fields change |
| SalaResource.DeleteSala | resources/TB_SalaResource.py:176-182 | 404; a room still named by a key or reservation fails with 500 and no change; otherwise exactly that room goes |
| ChaveResource.PostChave | resources/TB_ChaveResource.py:62-70 | 422; 404 when the room is absent; else 201 with exactly the submitted fields |
| ChaveResource.PutChave | resources/TB_ChaveResource.py:142-158 | 404; 422; a supplied room that does not exist gives 500 with no change; else only the supplied fields change |
| ChaveResource.DeleteChave | resources/TB_ChaveResource.py:183-192 | 404; 400 while the key is out; 500 while a checkout names it; else exactly that key goes |
| ResponsavelResource.Page | resources/TB_ResponsavelResource.py:64-67 | offset `(page-1)*per_page`, at most `per_page` rows, each the listing's row at its position; a short page means the listing ran out; a negative offset or limit fails |
| ResponsavelResource.ConsecutivePagesTile | resources/TB_ResponsavelResource.py:64-67 | two consecutive pages are consecutive slices of the listing, nothing skipped or repeated |
| ResponsavelResource.ListResponsaveis | resources/TB_ResponsavelResource.py:64-67 | every listed row is a stored responsável under its id |
| ResponsavelResource.ListedInIdOrder | resources/TB_ResponsavelResource.py:64 | ids on a page strictly ascend |
| ResponsavelResource.PostResponsavel | resources/TB_ResponsavelResource.py:94-98 | 422, or the loaded record inserted under a fresh id |
| ResponsavelResource.PutResponsavel | resources/TB_ResponsavelResource.py:189-197 | 404 before the load; 422; else only the supplied fields change |
| ResponsavelResource.DeleteResponsavel | resources/TB_ResponsavelResource.py:240-249 | 404; 409 while active; 500 while a reservation or checkout names it; else exactly that row goes |
| ReservaResource.Aligned | resources/TB_ReservaResource.py:37-46 | defines whether a stored reservation falls on a date: weekly on its weekdays, monthly on its day of month, single on its start date, fortnightly never; the fortnightly case is what `OnlyActiveNonFortnightlyConflict` states |
| ReservaResource.ConflictsWith | resources/TB_ReservaResource.py:25-47 | defines the query's condition on one row: active, same room, half-open overlap of the hours, the candidate's start date in the stored range and aligned, not the excluded id; its properties are stated by the conflict lemmas below |
| ReservaResource.ExisteConflito | resources/TB_ReservaResource.py:17-61 | defines the query as the existence of a row meeting `ConflictsWith`; `BackToBackNeverConflict`, `ExcludingIsRemoving`, `RepeatConflicts` and `StartDateOnly` state what it detects and misses |
| ReservaResource.BackToBackNeverConflict | resources/TB_ReservaResource.py:32-34 | windows that only touch never conflict (half-open overlap) |
| ReservaResource.OnlyActiveNonFortnightlyConflict | resources/TB_ReservaResource.py:32-46 | a cancelled, finished or fortnightly stored reservation never conflicts |
| ReservaResource.ExcludingIsRemoving | resources/TB_ReservaResource.py:47 | excluding an id is the same as querying the table without that reservation |
| ReservaResource.StartDateOnly | resources/TB_ReservaResource.py:25-46 | only the candidate's start date is tested: a weekly request on the same weekday and hours, starting one week before a stored weekly reservation, is not reported |
| ReservaResource.StoredReserva | resources/TB_ReservaResource.py:125-158 | every column is the loaded one, except that a single reservation is stored with end = start (any other keeps its submitted end date); the day rows are the submitted list or none |
| ReservaResource.UnicaEndAlreadyStart | resources/TB_ReservaResource.py:127-128 | after a full load, forcing the single reservation's end date changes nothing |
| ReservaResource.RepeatConflicts | resources/TB_ReservaResource.py:140-151 | an active, non-fortnightly reservation conflicts with the same request made again |
| ReservaResource.QuinzenalRepeatUndetected | resources/TB_ReservaResource.py:37-46 | a fortnightly reservation never conflicts with itself posted again |
| ReservaResource.PostReserva | resources/TB_ReservaResource.py:125-162 | 422; 404 without the room; 400 without an active responsável; 409 on conflict, each with no change; else 201 storing the record with day rows exactly the submitted list |
| ReservaResource.MergeReserva | resources/TB_ReservaResource.py:64-74 | defines the merge of a loaded patch into the stored record; `MergeTakesSuppliedFields` states that it takes exactly the supplied fields |
| ReservaResource.MergeTakesSuppliedFields | resources/TB_ReservaResource.py:64-74 | the merge takes each supplied field and keeps every other stored field; merging twice is merging once |
| ReservaResource.FrequenciaFinal | resources/TB_ReservaResource.py:235 | never absent; without a submitted frequency it is the stored one's name, which parses back to it; a submitted one is used as is |
| ReservaResource.DiasFinais | resources/TB_ReservaResource.py:233-243 | every day comes from the submitted list or the stored rows; a stored single or monthly reservation updated without a frequency keeps no rows; a recurring one updated without a list keeps its rows |
| ReservaResource.UpdatePayload | resources/TB_ReservaResource.py:234-248 | the body loaded by the update always carries the final frequency and day set |
| ReservaResource.UpdatedDaysValid | resources/TB_ReservaResource.py:236-255 | the stored day set is in 1..7; empty for single and monthly; non-empty and holding a supplied start date's weekday for weekly and fortnightly |
| ReservaResource.PutReserva | resources/TB_ReservaResource.py:228-289 | 404; 422; 409 on conflict with the reservation itself excluded; 500 when the merged room or responsável is missing; else the merged record with the final day set |
| ReservaResource.UpdateToUnicaKeepsDates | resources/TB_ReservaResource.py:247-257 | an update that changes only the frequency to single keeps an end date different from the start |
| ReservaResource.DetachReserva | models/TB_Retirada.py:44 | deleting a reservation clears exactly the checkouts' references to it and changes nothing else |
| ReservaResource.DeleteReserva | resources/TB_ReservaResource.py:313-322 | 404; 409 while active; else the reservation goes with its day rows and its checkouts are detached |
| RetiradaResource.ExisteRetiradaAtiva | resources/TB_RetiradaResource.py:138-150 | defines the open-checkout query: some `retirada`/`atrasada` checkout of a key of the room; `CheckoutKeepsCustody` and `ClosingReleasesUnderOneOpen` state its role |
| RetiradaResource.ReservaPermits | resources/TB_RetiradaResource.py:85-117 | defines the reservation guard: active, today in range, and for weekly or fortnightly today's weekday and the time window; `EarlyStartWindowWraps` states its midnight edge |
| RetiradaResource.EarlyStartWindowWraps | resources/TB_RetiradaResource.py:108-117 | for a weekly or fortnightly reservation starting before 00:10, checkout is permitted only from the wrapped evening time up to the reservation's end time, which must itself be at least that late |
| RetiradaResource.ChaveOk | resources/TB_RetiradaResource.py:120-150 | defines the key guard: the key exists, opens the reservation's room, is available, and its room has no open checkout |
| RetiradaResource.CheckoutAllowed | resources/TB_RetiradaResource.py:74-155 | defines the conjunction of all checkout guards; `PostRetirada` states that it creates exactly when this holds |
| RetiradaResource.CheckoutKeepsCustody | resources/TB_RetiradaResource.py:138-161 | a checkout in a room with no open checkout keeps "open checkouts hold their key and room unavailable" and "one open checkout per room" |
| RetiradaResource.CommitCheckout | resources/TB_RetiradaResource.py:157-163 | inserts the checkout under a fresh id and marks the key and its room unavailable, keeping the store valid and custody |
| RetiradaResource.PostRetirada | resources/TB_RetiradaResource.py:70-163 | 201 iff the body loads and every guard passes; each failed guard gives its own status (404 date, 404/409 reservation, 404/409 key, 400 responsável) and no change |
| RetiradaResource.UpdateRetirada | resources/TB_RetiradaResource.py:244-248 | only `status` and `hora_devolucao` are taken from the patch |
| RetiradaResource.ClosingReleasesUnderOneOpen | resources/TB_RetiradaResource.py:250-269 | with one open checkout per room, closing a checkout always returns its room's last open checkout |
| RetiradaResource.UpdateKeepsCustody | resources/TB_RetiradaResource.py:250-269 | an update that does not reopen a checkout keeps both custody invariants |
| RetiradaResource.ReleaseKey | resources/TB_RetiradaResource.py:268-269 | marks exactly the key and its room available |
| RetiradaResource.RecordUpdate | resources/TB_RetiradaResource.py:246-270 | writes the row; flags are freed iff an open checkout becomes returned and none remains open in the room |
| RetiradaResource.PutRetirada | resources/TB_RetiradaResource.py:235-270 | 404; 422; else the copied fields and the conditional release; custody kept unless a returned checkout is reopened |
| RetiradaResource.DeleteRetirada | resources/TB_RetiradaResource.py:296-305 | 404; 409 while open; else exactly that row goes; custody kept |
| HistoricoResource.Lower | resources/HistoricoResource.py:66-67 | ASCII letters lowered, everything else and the length kept |
| HistoricoResource.Like | resources/HistoricoResource.py:65-67 | SQL `LIKE` matching; a pattern without wildcards matches only itself |
| HistoricoResource.NameFilterIsSubstring | resources/HistoricoResource.py:65-67 | without `%` or `_` in the search text the name filter is a substring test |
| HistoricoResource.JoinRow | resources/HistoricoResource.py:31-51 | the row carries the checkout's id, date, three times and status, its key, responsável and the key's room, with the room, key and responsável names |
| HistoricoResource.Selected | resources/HistoricoResource.py:48-67 | defines the WHERE clause on one checkout (the join, the status and each given filter); `HistoricoRowsMatchFilters` states its consequences for every listed row |
| HistoricoResource.Candidatos | resources/HistoricoResource.py:52-67 | a row appears iff its checkout passes the WHERE clause |
| HistoricoResource.NotEarlierIsOrderBy | resources/HistoricoResource.py:69 | the order used is date descending, then time descending |
| HistoricoResource.SortDesc | resources/HistoricoResource.py:69 | the result is ordered latest first and is a permutation of its input |
| HistoricoResource.Historico | resources/HistoricoResource.py:31-71 | the listing is ordered latest first and is a permutation of the selected rows |
| HistoricoResource.HistoricoListsSelected | resources/HistoricoResource.py:48-67 | a row is listed iff it is the joined row of a returned checkout that passes every given filter |
| HistoricoResource.HistoricoRowsMatchFilters | resources/HistoricoResource.py:52-67 | every listed row is returned and matches each given filter |
| HistoricoResource.ByIdAgreesWithListing | resources/HistoricoResource.py:115-146 | the lookup by id finds a row iff the unfiltered listing has a row for that checkout, and then it is exactly that row; otherwise 404 |
| HistoricoResource.EveryReturnedCheckoutListed | resources/HistoricoResource.py:48-52 | in a valid store every returned checkout is in the unfiltered history |

## Left out

- Redis caching, Solr indexing and search, logging, routing and `marshal` output formatting: these are network I/O and framework plumbing. The cache never changes a committed outcome.
- The responsável schema: `models/TB_Responsavel.py` is not part of this model. Its load outcome is a parameter of `PostResponsavel` and `PutResponsavel`. The delete path assumes that its relationships do not cascade.
- The responsável listing's search path (`q` other than the default). Only the database paging is modelled, and the integer parse of `page`/`per_page` is not.
- The history view migration and its unused model: DDL only.
- Concurrency: the model is sequential. Each request is one atomic step.
- Type parse errors (a string where an integer is expected, a badly formatted date), unknown JSON members and error message texts. Only the field names a load reports are modelled.
- The clock is read at minute resolution. Seconds and microseconds of `datetime.now()` are not modelled.
- HistoricoResource.Like: the backslash escape of SQL `LIKE` is not modelled.
- HistoricoResource.Lower: lowers ASCII letters only. `str.lower` and SQL `LOWER` also fold non-ASCII letters.
- HistoricoResource.Historico: the database leaves the order of rows at the same moment unspecified. The model fixes one order: id order, then a stable sort.
- The history filters take a parsed integer id. A non-numeric `sala_id` or `responsavel_id` argument, which fails in the database, is not modelled.
- ReservaResource.PutReserva: its 500 branch, taken when the merged `sala_id` or `responsavel_id` names no row, assumes a database that enforces foreign keys at commit. On a database that does not, the update commits and leaves a dangling reference, and `Store.Database.Valid` would no longer hold.
- ReservaResource.ExisteConflito: the query's `dias_semana` argument is unused by the source. The model has no parameter for it.
- The GET endpoints for lists and single rows of keys, reservations and checkouts are plain reads. They are covered by the generic `Store.Lookup` and `Store.Rows`, with no endpoint of their own.

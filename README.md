# ProcessLink connection core in Dafny

This project models the polled-tag bookkeeping of ProcessLink's base
`Connection` (process_link/connection.py) and the construction and default
rules of its Logix device family (process_link/connections/logix.py).

A connection owns a map from tag id to tag, a list of polled tag ids, a
`polling` flag and a `thread_lock` flag. The control path rewrites the
polled list with `update_polled_tags` and `remove_polled_tags` while it holds
the lock. A background poller builds one batch of samples per cycle, also
under the lock.

Files:

- `values.dfy` (module `Values`): Python scalars, truthiness, `dict.get`, the
  exceptions raised, and the caller's dictionary that `new_tag` updates.
- `polled_tags.dfy` (module `PolledTags`): the list algorithms as functions
  of the old list and `sub_tags`, with lemmas on what they compute.
- `connection.dfy` (module `Connections`): the `Connection` class. Its methods
  run the source's loops over the `polledTags` field and are proved against
  the `PolledTags` functions.
- `logix.dfy` (module `Logix`): `LogixTag` construction, truthiness defaults,
  and the `LogixConnection` class.

Modelling choices:

- The spin-wait on `thread_lock` in `aquire_lock` and `poll` never ends in a
  single-threaded run. It becomes the precondition that the flag is clear.
- Starting a polling thread is counted in the ghost field `pollersStarted`.
- The base tag constructor lives in tag.py, which is not part of this model.
  It is passed in as a function that may fail (`TagConstructor`).
- Python subclassing becomes composition. A `LogixConnection` holds the base
  `Connection` its constructor set up, and overwrites that object's type and
  poll rate.
- Ids in the polled list are strings. Tag-map keys are whatever value
  `params["id"]` holds.

Where the code does something other than what its own comments and names
say, the model follows the code and also proves the corrected behaviour (see
"## Findings"):

- In `update_polled_tags`, the comment on the pop loop
  (process_link/connection.py:195) says it iterates in reverse "so popping
  doesn't change index of the remaining tags". That only matters if it pops
  the indices the hitlist names. The code pops `i` instead, and so removes
  the wrong entries whenever a retained id precedes an id being dropped.
- `remove_polled_tags` is named for removing the given ids, and its author
  doubts it at line 202 ("Not sure this is going to work right"). The code
  empties any list without duplicates.
- `polling` is not kept equal to "the list is non-empty" in general. Only the
  two list methods end in that state, because they finish with
  `set_polling(bool(len(polled_tags)))`.
- `new_tag` reports an unknown type as a `PropertyError`. Because `TAG_TYPES`
  registers only `'local'`, `new_tag` on a connection whose type is `"logix"`
  always fails with "unknown type" (the second ensures of
  `Connections.Connection.NewTag`).

## Model

| member | source | states |
|---|---|---|
| `PolledTags.AppendMissingSpec` | process_link/connection.py:188-190 | After the append loop every id of `sub_tags` is in the list. The old list is a prefix of the new one. Every appended entry is an id of `sub_tags` that was not in the old list. |
| `PolledTags.AppendMissingDistinct` | process_link/connection.py:188-190 | The append loop keeps a duplicate-free list duplicate-free, even when `sub_tags` repeats ids. |
| `PolledTags.AppendMissingDisjoint` | process_link/connection.py:188-190 | From a list that shares no id with `sub_tags`, the loop appends the same ids, in the same order, as it would to an empty list. |
| `PolledTags.HitlistSpec` | process_link/connection.py:191-194 | The hitlist is strictly increasing. It names exactly the indices whose id is not in `sub_tags`. |
| `PolledTags.HitlistKeepCount` | process_link/connection.py:191-194 | The hitlist length plus the number of entries in `sub_tags` equals the list length. |
| `PolledTags.CollectHitlist` | process_link/connection.py:191-194 | The enumerate loop returns the hitlist. Every index it holds is in range and names an id not in `sub_tags`. |
| `PolledTags.KeepSpec` | process_link/connection.py:186-196 | The intended survivors of the removal are the entries that are in `sub_tags`. Keeping them preserves the absence of duplicates. |
| `PolledTags.DropFrontKeepsMembers` | process_link/connection.py:195-196 | When the first k entries are exactly the non-members, dropping the first `len(hitlist)` entries drops exactly the non-members. |
| `PolledTags.UpdatedAsWrittenIsSuffix` | process_link/connection.py:186-196 | As written, `update_polled_tags` leaves a suffix of the post-append list. Its length is the number of that list's entries that are in `sub_tags`. |
| `PolledTags.UpdatedIntendedSpec` | process_link/connection.py:186-196 | The intended result holds an id exactly when it is in `sub_tags`. It has no duplicates when the old list had none. |
| `PolledTags.UpdatedAsWrittenWhenNonMembersLead` | process_link/connection.py:186-196 | When the old list's non-members of `sub_tags` sit at its front, the code as written gives the intended result. |
| `PolledTags.UpdatedAsWrittenOnlyWhenNonMembersLead` | process_link/connection.py:186-196 | Conversely, whenever the code as written gives the intended result, the old list's non-members of `sub_tags` sit at its front. |
| `PolledTags.UpdatedAsWrittenDistinct` | process_link/connection.py:186-196 | As written, `update_polled_tags` keeps a duplicate-free list duplicate-free. |
| `PolledTags.UpdatedFromDisjoint` | process_link/connection.py:186-196 | From a list disjoint from `sub_tags` (for example the empty list), the result is the distinct ids of `sub_tags` in first-occurrence order. |
| `PolledTags.UpdateScenario` | process_link/connection.py:186-196 | `["t1","t2"]` followed by `["t2"]` leaves exactly `["t2"]`. |
| `PolledTags.UpdateDropsWrongEntry` | process_link/connection.py:195-196 | `["t1","t2"]` updated with `["t1"]` leaves `["t2"]` as written, where `["t1"]` is intended. |
| `PolledTags.SpliceOut` | process_link/connection.py:195-196 | Corrected pop loop, one step: removing a non-member that follows a run of members keeps the shape "untouched prefix, then filtered rest", with the cut moved back. |
| `PolledTags.PopHitsStep` | process_link/connection.py:195-196 | Corrected pop loop: popping `hitlist[i]` moves the cut back to just after `hitlist[i-1]`. |
| `PolledTags.RemoveFirstDistinct` | process_link/connection.py:205-206 | On a duplicate-free list, `list.remove(x)` drops every occurrence of `x` and keeps the rest in order. |
| `PolledTags.ExcludeSpec` | process_link/connection.py:201-206 | Subtraction keeps an id exactly when it is in the list and not in `sub_tags`. It preserves the absence of duplicates. |
| `PolledTags.RemoveEachIsSubtraction` | process_link/connection.py:204-206 | On a duplicate-free list, the first loop of `remove_polled_tags` is exactly subtraction of `sub_tags`, order kept. |
| `PolledTags.RemovedAsWrittenClears` | process_link/connection.py:203-212 | As written, `remove_polled_tags` empties every duplicate-free list, whatever separate `sub_tags` list it is given. |
| `PolledTags.RemoveDropsEverything` | process_link/connection.py:203-212 | `["t1","t2"]` minus `["t1"]` leaves `[]` as written, where `["t2"]` is intended. |
| `PolledTags.OccurrencesSpec` | process_link/connection.py:127-130 | An id is counted exactly when it occurs. In a duplicate-free list it is counted at most once. |
| `Connections.MissingRequired` | process_link/connection.py:91-95 | Construction fails exactly when `id` or `connection_type` is absent. `id` is reported first. |
| `Connections.TagParameters` | process_link/connection.py:173-175 | A local tag exposes six property names, ending in `value`. |
| `Connections.Repeat` | process_link/connection.py:127-130 | The sample list of one id is n copies of the cycle's sample. |
| `Connections.BuildUpdates` | process_link/connection.py:123-130 | The batch's keys are exactly the polled ids. Each id gets one `(value, ts)` sample per occurrence, all stamped with the cycle timestamp. For a duplicate-free list that is exactly one sample per id. |
| `Connections.Connection.constructor` | process_link/connection.py:96-106 | The type is forced to `"local"`. Description and poll rate are taken verbatim when present, otherwise `''` and 0.5. Tag map and polled list start empty, and `polling`, `thread_lock` and `con_man` start false. |
| `Connections.NewConnection` | process_link/connection.py:86-106 | A missing `id` or `connection_type` raises PropertyError naming the key (`id` first). Otherwise the new connection is in the initial state above. |
| `Connections.Connection.SetPolling` | process_link/connection.py:114-118 | A poller is started only when polling is requested and was off. Afterwards `polling` equals the request. |
| `Connections.SetPollingTwice` | process_link/connection.py:114-118 | Two `set_polling(True)` calls in a row start one poller if polling was off, and none if it was on. Only `polling` and the poller count change. |
| `Connections.Connection.AcquireLock` | process_link/connection.py:178-184 | Taking the lock, possible only when it is free in a single-threaded run, sets the flag. |
| `Connections.Connection.NewTag` | process_link/connection.py:135-146 | Always writes `connection_id` into the caller's dictionary. The registry `TAG_TYPES` (process_link/connection.py:36) holds only `'local'`, so any other type raises "unknown type: <type>". A failing constructor's KeyError is re-raised as "unknown type"; any other error propagates unchanged. A missing `id` raises "unknown type: id". On success the tag is filed under `params["id"]` and every other entry is unchanged. On any failure the tag map is unchanged. |
| `Connections.Connection.PollCycle` | process_link/connection.py:122-132 | One polling cycle takes and releases the lock. It returns the batch described at `BuildUpdates` for the current polled list. |
| `Connections.Connection.AppendMissingTags` | process_link/connection.py:188-190 | The append loop, run on the field, yields `AppendMissing` of the old list. |
| `Connections.Connection.RemoveListedTags` | process_link/connection.py:204-206 | The remove loop, run on the field, yields `RemoveEach` of the old list. |
| `Connections.Connection.PopHitlistAsWritten` | process_link/connection.py:195-196 | Popping `i` for `i` from `len(hitlist)-1` down to 0 drops exactly the first `len(hitlist)` entries. |
| `Connections.Connection.PopHitlist` | process_link/connection.py:195-196 | Corrected loop: popping `hitlist[i]` in reverse leaves exactly the entries in `sub_tags`, in order. |
| `Connections.Connection.UpdatePolledTags` | process_link/connection.py:186-198 | As written: the list becomes `UpdatedAsWritten`, and stays duplicate-free if it was. Afterwards `polling` is true exactly when the list is non-empty, a poller is started only if polling was off, and the lock is free. |
| `Connections.Connection.UpdatePolledTagsCorrected` | process_link/connection.py:186-198 | Corrected: the list holds exactly the ids of `sub_tags`, with no duplicates when it had none. The same polling and lock rules hold. |
| `Connections.Connection.RemovePolledTags` | process_link/connection.py:201-214 | As written: the list becomes `RemovedAsWritten`. A duplicate-free list ends empty with polling off, and the lock is free. |
| `Connections.Connection.RemovePolledTagsCorrected` | process_link/connection.py:201-214 | Corrected: on a duplicate-free list only the ids of `sub_tags` are removed and the rest keep their order. The same polling and lock rules hold. |
| `Logix.GetOr` | process_link/connections/logix.py:101-105 | `params.get(key) or default` keeps a truthy given value and otherwise yields the default. The result is truthy exactly when the given value or the default is. |
| `Logix.ResolveSettings` | process_link/connections/logix.py:101-105 | Poll rate, port and host always end truthy: given truthy values are kept, otherwise 1.0, 44818 and `'127.0.0.1'`. `auto_connect` keeps a truthy value and becomes `False` otherwise. |
| `Logix.FalsySettingsTakeDefaults` | process_link/connections/logix.py:101-105 | For each of `pollrate`, `auto_connect`, `port` and `host`, an absent key and a key set to any falsy value (None, 0, 0.0, `''`, False) resolve alike. An empty dictionary resolves to all defaults. |
| `Logix.NewLogixTag` | process_link/connections/logix.py:29-37 | Base-tag errors propagate. A missing `address` raises PropertyError. Otherwise the tag keeps the base tag's properties, has type `"logix"`, and has the given address. |
| `Logix.LogixTagParameters` | process_link/connections/logix.py:123-124 | The Logix list is the local list with `'address'` inserted just before `'value'`. |
| `Logix.LogixConnection.constructor` | process_link/connections/logix.py:96-107 | On top of the base state, the type becomes `"logix"` and the poll rate, auto-connect, port and host follow `ResolveSettings`. |
| `Logix.NewLogixConnection` | process_link/connections/logix.py:96-107 | The only construction errors are the base class's missing `id` or `connection_type`. Missing host, port, poll rate or auto-connect never raise. |
| `Logix.LogixConnection.SetPollrate` | process_link/connections/logix.py:54-59 | After setting the poll rate, the getter returns the value set. |
| `Logix.LogixConnection.SetAutoConnect` | process_link/connections/logix.py:61-66 | After setting auto-connect, the getter returns the value set. |
| `Logix.LogixConnection.SetHost` | process_link/connections/logix.py:68-73 | After setting the host, the getter returns the value set. |
| `Logix.LogixConnection.SetPort` | process_link/connections/logix.py:75-80 | After setting the port, the getter returns the value set. |

## Left out

- Threading: `create_thread`, the daemon thread, the `while self.polling` loop of `poll` and the real spin-waits. Only the flags and a ghost count of started pollers remain; `Connections.Connection.PollCycle` is one iteration of the loop body.
- Time: `time.time()` becomes the timestamp parameter of a cycle. The sleep `ts + pollrate - now` is left out; a negative argument there would raise `ValueError` in Python.
- The sample value: the source records the placeholder float 3.14159 for every tag. The model takes the value read as a parameter, shared by every tag in the cycle.
- The update sink `store_updates` is an external collaborator. `PollCycle` returns the batch it would receive.
- Database I/O: every `get_params_from_db`, `save_to_db`, `delete_from_db` and `load_tags_from_db`, and the ORM models `base_orm` and `orm`.
- `connect_connection` and `disconnect_connection` wrap `ConxManager`. connections/connection_manager.py is not part of this model.
- The `APIClass` machinery (the `properties` lists, `PropertyError`'s message text) and the `process_link` back-reference. api.py is not part of this model.
- tag.py is not part of this model. The base `Tag` constructor is a parameter that may fail; its internals and the Logix tag's `address` getter and setter are not modelled.
- The `description` setter of the base connection and the read-only `id`, `connection_type` and `tags` properties are plain field reads and writes here.
- Python equality across types (`1 == 1.0 == True`) is not modelled: ids and values compare structurally. Values are the scalars None, bool, int, float and str; a float is an exact real.
- `TAG_TYPES` is a module-level dictionary that other modules could extend. It is modelled as the constant registry `{'local': Tag}` that this file declares.
- `sub_tags` is taken to be a list separate from `polled_tags`. A call such as `conn.remove_polled_tags(conn.polled_tags)` iterates the list it removes from, so Python skips every other entry; the model's `sub` is a value and does not capture that aliasing. `update_polled_tags` on its own list is unaffected: it appends nothing and hits nothing, as the model computes.
- Connections.Connection.AcquireLock: requires the flag to be clear instead of spinning until another thread clears it. `UpdatePolledTags`, `RemovePolledTags` and `PollCycle` inherit that requirement.

## Findings

| source | as written | input that shows it | evidently intended | confidence | as-written member | corrected member |
|---|---|---|---|---|---|---|
| process_link/connection.py:195-196 | `self.polled_tags.pop(i)` pops indices `len(hitlist)-1 .. 0`, the first `len(hitlist)` entries, not the entries the hitlist names | `update_polled_tags(["t1","t2"])` then `update_polled_tags(["t1"])` leaves `["t2"]` | `pop(hitlist[i])`, leaving exactly the ids of `sub_tags` (`["t1"]`) | high, not executed | `PolledTags.UpdateDropsWrongEntry` | `Connections.Connection.UpdatePolledTagsCorrected` |
| process_link/connection.py:207-212 | after the listed ids are removed, no entry is in `sub_tags`, so the hitlist names every index and the pop loop empties the list | `remove_polled_tags(["t1"])` on `["t1","t2"]` leaves `[]` | remove only the listed ids, leaving `["t2"]` | high, not executed | `PolledTags.RemoveDropsEverything` | `Connections.Connection.RemovePolledTagsCorrected` |

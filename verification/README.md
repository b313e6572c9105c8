# wi-stat-server core, modelled in Dafny

This project models the in-memory core of `wi-stat-server`. That is the
server behind a small multiplayer game's companion services. It models four
parts:

- **The chat relay** (`ring.dfy`, `chat.dfy`).
  - The message log is a ring of 20 text slots, with a write index and a
    revision counter. `Ring.Messages` models it.
  - The broadcaster keeps, for each registered client, the revision it has
    been sent up to. On every tick it replays the messages a client has not
    seen. `Broadcast.Chat` models it.
  - A client that has fallen behind by more than 20 messages loses the
    older ones.
  - `Broadcast.Pending` gives exactly which texts a tick writes to such a
    client, and `Broadcast.PendingStopsAtEmpty` pins them down as the
    unseen messages up to the first empty one.
- **The session registry** (`sessions.dfy`).
  - It is a map from token to session, with these requests: create a
    session, find one, patch one from a JSON body, and the clean-up tick.
  - The JSON view of a session is part of the model.
- **The hiscore helpers** (`hiscores.dfy`).
  - The key/value map of a hiscore row, with the last write winning.
  - The descending order that `sort.Sort` puts rows in.
  - What `Select` makes of the answers to its two queries.
  - The commit/rollback rule of `Transaction`.
- **The API conversions** (`api.dfy`).
  - A posted JSON hiscore is flattened into key/value rows, and the rows
    are read back into JSON.
  - The round trip between the two is proved.
  - The query parameters of the top-hiscores request are defaulted.

The helper modules are:

- `wrappers.dfy`, with `Option` and `Result`;
- `gomaps.dfy`, for ranging over a Go map.

Go leaves the order of map iteration unspecified. The model therefore picks
each next key nondeterministically, so every fact proved about such a loop
holds for every order.

## Where the code and the intended design disagree

Where the design the code is evidently meant to follow and the code itself
disagree, the model follows the code.

- **`request` does not check for a collision.**
  - A registry of this kind is expected to reject a token collision.
  - `request` has no check. It stores the new session under the generated
    token and replaces any session already there (sessions.go:73).
  - `Sessions.SessionStore.Request` states this overwrite.
- **`cleanUpExpired` does not delete anything.**
  - A function of that name is expected to sweep out expired sessions.
  - `cleanUpExpired` only logs the number of sessions and every entry
    (sessions.go:109-114).
  - `Sessions.SessionStore.CleanUpExpired` states that it logs every entry
    and removes nothing.
- **The two files disagree on the registry's map type.**
  - types.go:33 declares `map[string]*Session`.
  - sessions.go:31 builds a `map[string]Session`.
  - Under the value map, `find` returns the address of a copy, and the
    fields `patchFromJson` sets are lost. See "## Findings".
  - `SessionStore` follows the pointer map of types.go. The as-written
    behaviour is modelled as well.
- **The two files disagree on the JSON type.**
  - types.go:15-20 declares `SessionAsJson` with plain fields.
  - sessions.go:17-28 and 93-101 use it with pointer fields. They read it as
    the nullable body of types.go:22-26.
  - The model has one `SessionAsJson` whose optional fields are `Option`s.
- **api.go uses names that no source file defines.**
  - These are `HiscoreData`, `DataMap` and `TimeGroupSeconds`.
  - api.go:121 also calls `Select` with three arguments, but hiscores.go:107
    declares two.
  - `HiscoreData` and `DataMap` are modelled as twins of `HiscoreValue` and
    `ValueMap`, built the same way.
  - The `by` parameter is modelled up to its clamping, which is where its
    use in `TimeGroupSeconds[by]` begins.
  - Because `by` is a Dafny keyword, the model calls it `group`.

## Model

| member | source | states |
|---|---|---|
| Ring.GoRem | cmd/chat/chat/chat.go:50 | Go's truncating `%`: the remainder is smaller in magnitude than the divisor, has the sign of the dividend, and has the magnitude of the remainder of the magnitudes |
| Ring.FullModulo | cmd/chat/chat/chat.go:54-57 | for a positive length the result lies in [0, length) and equals the floor modulo, negative indexes included |
| Ring.FullModuloPeriodic | cmd/chat/chat/chat.go:54-57 | shifting the index by the length selects the same slot |
| Ring.Fill | cmd/chat/chat/chat.go:40-52 | the slots after a history of adds, starting from `capacity` empty slots, always number `capacity` |
| Ring.FillRecent | cmd/chat/chat/chat.go:48-52 | a message added fewer than `capacity` adds ago is still in slot `position % capacity` |
| Ring.FillUnwritten | cmd/chat/chat/chat.go:40-52 | a slot that was never written still holds the empty string |
| Ring.Walk | cmd/chat/chat/chat.go:65-73 | the loop of `forEach` makes at most `count` callbacks, and none carries an empty text |
| Ring.WalkVisits | cmd/chat/chat/chat.go:65-73 | callback `t` is slot `fullModulo(start + t)` with that slot's text; a loop that ends early has hit an empty slot |
| Ring.WalkCongruent | cmd/chat/chat/chat.go:64-66 | walks from positions congruent modulo the length make the same callbacks |
| Ring.Clamp | cmd/chat/chat/chat.go:61 | the replayed amount is at most the length, it equals `amount` when `amount` lies in [0, length], and it is the length when `amount` is negative or above the length |
| Ring.Replay | cmd/chat/chat/chat.go:59-74 | `forEach(amount)` makes at most `clamp(amount)` callbacks, none with an empty text |
| Ring.WalkRecent | cmd/chat/chat/chat.go:63-73 | walking the last `count <= capacity` positions yields a prefix of the last `count` messages; it yields all of them iff none of them is empty; otherwise it stops exactly at the first empty message, and it never yields an empty one |
| Ring.ReplayStart | cmd/chat/chat/chat.go:61-64 | with write index `revision % len`, `forEach(amount)` starts at the position `revision - clamp(amount)` |
| Ring.ReplayWindow | cmd/chat/chat/chat.go:59-74 | `forEach(revision - cursor)` yields a prefix of the last `min(revision - cursor, len)` messages, oldest first; it yields all of them iff none is empty, and older messages are lost |
| Ring.ReplayStopsAtEmpty | cmd/chat/chat/chat.go:63-73 | that replay never calls back with an empty message, and when it yields fewer than `min(revision - cursor, len)` texts, the next message of the window is the empty one it stopped at |
| Ring.ReplayWindowSlots | cmd/chat/chat/chat.go:63-73 | the replay calls back with slots `(revision - n + t) % len`: those of the replayed messages, in the order they were written |
| Ring.CapacityThreeBacklog | cmd/chat/chat/chat.go:48-74 | with capacity 3, after a, b, c, d, `forEach(4)` yields b, c, d: a was overwritten |
| Ring.CapacityThreeLatest | cmd/chat/chat/chat.go:48-74 | on the same ring, `forEach(1)` yields d |
| Ring.Messages.constructor | cmd/chat/chat/chat.go:40-46 | `size` empty slots, index 0, revision 0, empty history |
| Ring.Messages.Add | cmd/chat/chat/chat.go:48-52 | writes `s` at the old index, and no other slot changes; the index becomes `(index + 1) % len`; the revision grows by exactly 1; the invariant (index in range, revision = number of adds, slots = `Fill` of the history) is kept |
| Ring.Messages.ForEach | cmd/chat/chat/chat.go:59-74 | the callbacks made are exactly `Replay` of the slots at the current index |
| Broadcast.Pending | cmd/chat/chat/chat.go:84-95 | what a tick writes to a client with cursor `c`: nothing when the client is up to date, otherwise a prefix of the messages from `max(c, revision - 20)` on, and all of those iff none is empty |
| Broadcast.PendingStopsAtEmpty | cmd/chat/chat/chat.go:65-73 | a tick never writes an empty frame, and when it writes fewer texts than that window holds, the next message of the window is the empty one it stopped at: exactly the messages before the first empty one are sent |
| Broadcast.DeliveredGrows | cmd/chat/chat/chat.go:82-83 | delivery stays in order and duplicate-free when the history grows |
| Broadcast.DeliverWindow | cmd/chat/chat/chat.go:86-93 | appending a replay of the messages at or after the cursor keeps each client's frames in history order, each message at most once |
| Broadcast.Chat.constructor | cmd/chat/chat/chat.go:16-25 | no clients and an empty log of 20 slots (chat.go:79) |
| Broadcast.Chat.Register | cmd/chat/chat/chat.go:96-102 | a new client with a fresh id and cursor 0, nothing sent yet; every cursor stays at most the revision |
| Broadcast.Chat.Unregister | cmd/chat/chat/chat.go:103-104 | the client leaves the map, and an absent client changes nothing; frames already sent are kept |
| Broadcast.Chat.Inbound | cmd/chat/chat/chat.go:82-83 | only `add`: the history gains the text and the revision grows by 1 |
| Broadcast.Chat.Deliver | cmd/chat/chat/chat.go:86-94 | one client's turn in a tick: `Pending` is appended to its frames and its cursor moves to the revision |
| Broadcast.Chat.Tick | cmd/chat/chat/chat.go:84-95 | every client is sent `Pending` for its own cursor, and every cursor moves to the revision; frames stay in order and duplicate-free, and cursors never pass the revision |
| Broadcast.TickStep | cmd/chat/chat/chat.go:85-94 | visiting one more client advances the tick's loop invariant |
| Broadcast.TickDone | cmd/chat/chat/chat.go:85-95 | once every client has been visited, the loop invariant gives the tick's result |
| GoMaps.Enumerate | cmd/chat/sessions/sessions.go:111-113 | a `range` over a map lists every entry exactly once, in some order |
| GoMaps.DropLast | cmd/chat/sessions/sessions.go:111-113 | an enumeration without its last pair enumerates the map without that key |
| GoMaps.EnumerationLength | cmd/chat/sessions/sessions.go:110-113 | an enumeration has exactly `len(m)` pairs |
| Sessions.SessionToJson | cmd/chat/sessions/sessions.go:17-28 | nil gives the zero value; otherwise token, game instance, in-game flag and player name are copied |
| Sessions.NewSession | cmd/chat/sessions/sessions.go:66-72 | a session created at `now` has the generated token, is not in a game, has empty strings, and expires at `now` plus one minute (sessions.go:44) |
| Sessions.ApplyPatch | cmd/chat/sessions/sessions.go:93-102 | each field the request carries replaces the session's, absent fields stay, the token never changes, and the expiry becomes `now` plus one minute |
| Sessions.PatchTwice | cmd/chat/sessions/sessions.go:93-102 | two patches in a row equal one patch with the merged request, at the later time |
| Sessions.PatchIdempotent | cmd/chat/sessions/sessions.go:93-102 | repeating a patch changes only the expiry |
| Sessions.EmptyPatchRefreshes | cmd/chat/sessions/sessions.go:102 | a patch without fields only refreshes the expiry |
| Sessions.OwnJsonRefreshes | cmd/chat/sessions/sessions.go:17-28 | patching a session with its own JSON view only refreshes the expiry |
| Sessions.PatchAsWritten | cmd/chat/sessions/sessions.go:77-107 | over the value map of sessions.go:31, the result is true iff the request is non-nil and the token is known, and the map never changes |
| Sessions.PatchIsLostAsWritten | cmd/chat/sessions/sessions.go:31 | a reported-successful patch of the player name is absent from the map afterwards |
| Sessions.SessionStore.constructor | cmd/chat/sessions/sessions.go:30-40 | an empty registry |
| Sessions.SessionStore.Request | cmd/chat/sessions/sessions.go:65-75 | returns the generated token, whose entry becomes a new session; an existing entry under it is replaced, and every other entry is unchanged |
| Sessions.SessionStore.Find | cmd/chat/sessions/sessions.go:77-83 | the stored session iff the token is present, otherwise nil; in a valid registry a found session carries the token asked for; the registry is not changed |
| Sessions.SessionStore.PatchFromJson | cmd/chat/sessions/sessions.go:85-107 | false and no change for a nil request or an unknown token; otherwise true, and the stored session becomes `ApplyPatch` of it |
| Sessions.SessionStore.CleanUpExpired | cmd/chat/sessions/sessions.go:109-114 | logs the number of sessions and every entry exactly once; the registry is unchanged |
| Hiscores.LastWriteWinsKeys | cmd/stats/sql/hiscores.go:17-23 | the value map has exactly the keys of the rows |
| Hiscores.LastWriteWinsLast | cmd/stats/sql/hiscores.go:17-23 | each key maps to the value of its last row |
| Hiscores.BuildMap | cmd/stats/sql/hiscores.go:18-21 | the loop builds the last-write-wins map of the rows |
| Hiscores.WithMap | cmd/stats/sql/hiscores.go:17-23 | the row itself, together with its value map (exactly its keys, last write wins) and its data map |
| Hiscores.RanksStrictWeakOrder | cmd/stats/sql/hiscores.go:36-39 | the order `Less` compares by is irreflexive, asymmetric and transitive, and so is incomparability, as `sort.Interface` requires |
| Hiscores.MaxSortedHiscores.constructor | cmd/stats/sql/hiscores.go:27-30 | the rows and key it is given |
| Hiscores.MaxSortedHiscores.Len | cmd/stats/sql/hiscores.go:32-34 | the number of rows |
| Hiscores.MaxSortedHiscores.Less | cmd/stats/sql/hiscores.go:36-39 | true iff row i's value under the key, read as 0 when missing, is greater than row j's |
| Hiscores.MaxSortedHiscores.Swap | cmd/stats/sql/hiscores.go:41-45 | rows i and j are exchanged, every other row is unchanged, and the rows stay a permutation |
| Hiscores.MaxSortedHiscores.Sort | cmd/stats/sql/hiscores.go:136 | the rows end up a permutation of the rows they started as, and non-increasing under the key |
| Hiscores.SortedPairOrder | cmd/stats/sql/hiscores_test.go:115-127 | sorted by deaths, Jill with 9009 comes before Bob with 2 |
| Hiscores.WithMaps | cmd/stats/sql/hiscores.go:131-134 | one `withMap` per row, in order |
| Hiscores.Select | cmd/stats/sql/hiscores.go:107-139 | a query error is returned as is; no ids give an empty result without error; ids without rows give the "Zero results" error; otherwise the result has as many rows as were fetched, is a permutation of their `withMap`s, and is sorted in descending order of the key |
| Hiscores.Transaction | cmd/stats/sql/hiscores.go:78-87 | commits, keeping the callback's changes, iff its error is nil, and otherwise rolls back to the starting database; the callback's result and error are returned unchanged |
| Api.RowsOf | cmd/stats/main/api.go:190-192 | one row per ranged pair, in the order ranged |
| Api.FlattenedShape | cmd/stats/main/api.go:186-211 | name and time are copied; there are `len(ExtraValues) + 3` value rows, one per extra key with its value and no key twice, ending with kills, deaths, bounty; and `len(ExtraData) + 3` data rows, one per extra key with its value and no key twice, ending with team, className, bountyColor |
| Api.JsonHiscoresToDb | cmd/stats/main/api.go:186-214 | one row per entry, in order, each the flattening of its entry for some map order |
| Api.EntryFromDb | cmd/stats/main/api.go:218-246 | the name is copied; the extra maps are the maps without the reserved keys; each fixed field is its reserved key's value, 0 or "" when missing |
| Api.DbHiscoresToJson | cmd/stats/main/api.go:216-249 | one entry per row, in order |
| Hiscores.LastWriteWinsAppend | cmd/stats/sql/hiscores.go:19-21 | one more row updates the map at its key |
| Api.EnumerationRebuilds | cmd/stats/main/api.go:190-192 | the rows of a map range rebuild that map, whatever the order |
| Hiscores.LastWriteWinsAppendThree | cmd/stats/main/api.go:193-195 | the three fixed rows are written after the extra ones, in order |
| Api.EntryToDbMaps | cmd/stats/main/api.go:189-203 | the maps rebuilt from a flattened entry are its extra maps with the fixed fields added under their reserved keys |
| Api.StripAdded | cmd/stats/main/api.go:224-226 | deleting three added keys a map lacked restores the map |
| Api.RestoreTaken | cmd/stats/main/api.go:224-243 | deleting three keys and adding them back with their old values restores the map |
| Api.RoundTrip | cmd/stats/main/api.go:186-249 | an entry whose extra maps avoid the reserved keys, once flattened, rebuilt and read back, is the entry itself |
| Api.RoundTripFromDb | cmd/stats/main/api.go:186-249 | a row holding every reserved key, once read back, posted and rebuilt, has the same name and the same maps |
| Api.TopHiscoresParams | cmd/stats/main/api.go:100-118 | a missing field is a bad request; `num` becomes 10 when unparseable or above 10, and otherwise (negative included) is kept; `by` becomes 0 when unparseable or outside 0..2, and otherwise is kept |

## Left out

- Goroutines, channels, tickers and the `select` loops of both aggregators
  are not modelled. Each event they dispatch is one method call instead.
  `clientLoop` and the cull ticker are not modelled either.
- WebSocket I/O is not modelled. A client is an id handed out by
  `Register`, standing for the `*client` pointer. A write of a text frame
  is an append to that client's entry in `sent`.
  - `sent` holds the frames the tick attempted. The error of `WriteMessage`
    is discarded (chat.go:91) and the cursor moves on regardless
    (chat.go:93), so a write that fails loses that message for the client.
    The model does not represent a failed write.
- The `log` output of the tick (chat.go:88) and the log line that `SessionToJson`
  writes in its nil branch (sessions.go:19) are not modelled.
- The generated UUID and `time.Now()` are parameters.
  - `JsonHiscoresToDb` takes one time per entry.
- Go's `uint64` revisions and `int64` values are unbounded integers.
  - A revision would wrap only after 2^64 messages.
- Ring.Messages.constructor: it requires a positive size, and the only
  caller passes 20. With `makeMessages(0)`, `add` would panic on the index
  out of range at chat.go:49, before its `%` at chat.go:50, and `forEach`
  would divide by zero in `fullModulo` (chat.go:56, 64).
- Hiscores.MaxSortedHiscores.Sort: it is the insertion sort that Go's
  `sort.Sort` uses on short inputs, built on `Less` and `Swap` alone. For
  longer inputs, Go's pdqsort may leave rows with equal values in another
  order. Only a sorted permutation is promised, by either algorithm.
- Sessions.SessionStore.CleanUpExpired: the text `log.Print` writes is
  given as the returned count and (token, session) pairs.
- Hiscores.Select: the two SQL queries are not modelled. Their answers
  (ids, then rows with their values) are parameters. The `topN` limit
  belongs to the queries.
- SQL and GORM work is not modelled: `Cull`, `Insert`, `MakeHiscoresDb`,
  the migrations and the database test helpers. It is database I/O.
- Hiscores.Transaction: the database is an opaque value.
  - Commit and rollback are taken to succeed. `Rollback` and `Commit`
    discard the results of GORM's calls (hiscores.go:70-76), and
    `Transaction` does not look at them either (hiscores.go:82-84).
  - The callback returns its result, the staged state and its error.
  - Go's `interface{}` result is a type parameter.
- cmd/stats/decrypt is not part of this model. It wraps AES-GCM (NIST SP
  800-38D).
- The gin handlers, CORS and environment-variable wiring are not modelled.
- Base64 decoding (section 4 of RFC 4648) and JSON (un)marshalling are not
  modelled.
- Api.TopHiscoresParams: `strconv.Atoi` is replaced by its outcome, `None`
  for a parse error. The `Select` call that follows does not compile
  against hiscores.go.
- The compile-level mismatches between files are not modelled, such as
  `MakeChat(sessionsService)` at cmd/chat/main.go:18 and `Cull` called with
  a slice at api.go:47.
- The getters `GetToken` and `GetIsInGame` (sessions.go:9-15) are field
  reads of `Session` and are not modelled.

## Findings

| source | as written | input that shows it | evidently intended | confidence | as-written member | corrected member |
|---|---|---|---|---|---|---|
| cmd/chat/sessions/sessions.go:77-107 | the registry is the `map[string]Session` of sessions.go:31; `find` returns the address of a local copy, so `patchFromJson` changes the copy and still returns true | session "t" freshly requested; patch `{playerName: "ann"}` on "t" returns true, yet the stored player name is still "" | patches persist, as with the `map[string]*Session` of types.go:33 | not executed | Sessions.PatchAsWritten, Sessions.PatchIsLostAsWritten | Sessions.SessionStore.PatchFromJson |

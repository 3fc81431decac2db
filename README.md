# antenna_del_spam: the moderation decision, in Dafny

The bot polls an antenna (a saved search) on a federated social-networking
server. For each fetched post it decides whether the post is spam: an
object with a string `id`, an object `user` and at least two `mentions`.
For such a post it deletes the note, deletes the author's account, reads
the server settings, and appends the author's host to `blockedHosts`
unless it is already listed. This project models that decision
(`processElement`), its two helpers `contains` and `getStringSlice`, and
the loop in `main` that applies it to every fetched post in order.

Modules:

- `JsonValue`: the decoded JSON value (`JNull | JBool | JNum | JStr |
  JArr | JObj`) that `encoding/json` produces as an `interface{}`. It also
  holds `StringOr`, which is Go's `v, _ := m[k].(string)`.
- `BlockList`: `Contains` and `GetStringSlice` as the loops they are in
  the source. Each is proved against a specification: `in` for
  `Contains`, and the recursive function `StringSlice` for
  `GetStringSlice`. `AppendIfAbsent` is the contains-then-append step.
  `HostsJson` is the list as it is sent to update-meta.
- `Moderation`: every remote call is an `Event` in a trace:
  `DeleteNote(id)`, `DeleteAccount(userId)`, `GetMeta` and
  `UpdateMeta(list)`. `Classify` makes the shape checks, in the source's
  order. `PostStep` is what one post does, as a value: its events and the
  server settings afterwards. `RunSteps` is the loop over all posts. The
  class `Bot` holds the server's settings record and the trace.
  `Bot.ProcessElement` and `Bot.Run` are the imperative versions, and they
  are proved equal to `PostStep` and `RunSteps`.
- `ModerationProperties` holds the properties of the decision and of the
  run. `ModerationScenarios` holds worked examples.

Each event records that a call was attempted. The source can give up on a
request before sending it (main.go:169-172, 178-181), and the model still
records the call, because the bot carries on either way.

The network is an input. For each post, a `Network` value says whether the
admin/meta read succeeded and whether update-meta answered 200 OK. The
results of the two deletes are only logged by the source, so they have no
input. A successful read returns the server's current settings record. A
read whose body decodes to something other than the settings, such as an
error object or `null`, is modelled as a failed read; the outcome is the
same, since no usable `blockedHosts` is found (main.go:124-128). A
successful update replaces the record's `blockedHosts` with the list that
was sent.

Behaviour the model keeps as written: `user.id` and `user.host` fall back
to `""` when they are missing or are not strings (main.go:87-88). A local
author has no host, so their post adds `""` to the block list
(`ModerationScenarios.LocalAuthorBlocksEmptyHost`). The two deletes and the
settings read are issued whatever the deletes return. A failed read, a
missing `blockedHosts` or a non-string entry in it ends the handling of
that post only.

## Model

| member | source | states |
|---|---|---|
| `BlockList.Contains` | main.go:242-249 | returns true exactly when some element of the slice equals the string |
| `BlockList.GetStringSlice` | main.go:251-265 | the loop returns exactly `StringSlice(data)`: it fails on a non-array and at the first non-string item, and otherwise returns all the items' strings |
| `BlockList.StringsOfSpec` | main.go:253-262 | converting an array succeeds exactly when every item is a string, and then yields as many strings as there are items, each equal to its item, in order |
| `BlockList.StringSliceSpec` | main.go:251-265 | `getStringSlice` succeeds exactly on an array of strings, keeps their count and order, and fails on any non-array input |
| `BlockList.AppendIfAbsent` | main.go:137-140 | the old list is a prefix of the result, the host is a member, nothing else is added, the result is at most one longer, and the list is unchanged exactly when the host was already listed (so an unlisted host is appended once, at the end) |
| `BlockList.AppendIfAbsentIdempotent` | main.go:138-140 | appending the same host a second time gives the same list as appending it once |
| `BlockList.AppendIfAbsentKeepsDuplicateFree` | main.go:138-140 | a duplicate-free list stays duplicate-free |
| `BlockList.HostsJson` | main.go:219-224 | the JSON array sent to update-meta has one item per host |
| `BlockList.HostsJsonRoundTrip` | main.go:216-224 | a block list that was sent to update-meta reads back from the settings as the same list |
| `Moderation.Classify` | main.go:71-100 | a post is flagged exactly when it is an object with a string `id`, an object `user` and a `mentions` array of at least two entries; the note id is `id`, and the user id and host are the user's strings or `""` |
| `Moderation.BlockedHosts` | main.go:124-135 | the block list is readable exactly when `blockedHosts` is present and is an array of strings |
| `Moderation.PostStep` | main.go:70-159 | defines the calls one element causes and the settings afterwards; no call is issued exactly when the element is not flagged, the server changes only after a successful update for a flagged post, and no setting other than `blockedHosts` changes |
| `Moderation.RunSteps` | main.go:64-67 | defines a run as the elements handled in fetched order, each one reading the settings the earlier ones left; over a whole run no setting other than `blockedHosts` changes |
| `Moderation.Bot.ProcessElement` | main.go:70-159 | appends to the trace exactly the calls `PostStep` describes and leaves the server settings as `PostStep` describes |
| `Moderation.Bot.Run` | main.go:64-67 | handles the elements in fetched order; the trace and the settings are those of `RunSteps` |
| `ModerationProperties.NoCallUnlessFlagged` | main.go:71-100 | no remote call is issued, and the server is untouched, exactly when the element is not an object, or lacks a string `id`, an object `user` or two mentions |
| `ModerationProperties.FlaggedCallOrder` | main.go:102-117 | a flagged post issues DeleteNote(id), DeleteAccount(userId) and GetMeta in that order, whatever became of the deletes; at most one UpdateMeta follows |
| `ModerationProperties.NoUpdateWithoutBlockList` | main.go:117-135 | if the read fails or `blockedHosts` is missing or not an all-string array, only the two deletes and the read are issued and the server is untouched |
| `ModerationProperties.UpdateAppendsHost` | main.go:137-146 | for an unlisted host, UpdateMeta carries the old list with the host appended at the end: the old list is a prefix, the length grows by one, and the host is a member |
| `ModerationProperties.ListedHostNoUpdate` | main.go:138-154 | for a host that is already listed, no UpdateMeta is issued and the server is untouched |
| `ModerationProperties.OnlyBlockedHostsChanges` | main.go:143-146 | no setting other than `blockedHosts` is changed |
| `ModerationProperties.PostStepBlockList` | main.go:137-150 | after a post, the server's block list is the old one with the host appended if absent when the update succeeded, and the old one otherwise |
| `ModerationProperties.RepeatedPostNoUpdate` | main.go:138-154 | handling a post again after its host was blocked issues no second UpdateMeta |
| `ModerationProperties.RunAppend` | main.go:64-67 | running over `a + b` is running over `a` and then over `b` from the settings `a` left: the trace is the in-order concatenation |
| `ModerationProperties.RunOneMore` | main.go:64-67 | one more element appends exactly that element's own calls to the trace |
| `ModerationProperties.SkippedElementInvisible` | main.go:70-100 | a post that is not flagged leaves no call in the trace and does not change what the later posts do |
| `ModerationProperties.RunBlockList` | main.go:64-67 | over a whole run, a readable block list stays readable, keeps its old entries as a prefix, stays duplicate-free if it was, and gains only hosts of flagged posts |
| `ModerationScenarios.NewHostIsBlocked` | main.go:102-146 | the post n1 by u1@evil.example with two mentions, against `["other.example"]`, gives DeleteNote(n1), DeleteAccount(u1), GetMeta, UpdateMeta(["other.example", "evil.example"]) |
| `ModerationScenarios.KnownHostNotRepeated` | main.go:152-154 | the same post against `["evil.example"]` issues no UpdateMeta |
| `ModerationScenarios.OneMentionIgnored` | main.go:96-100 | the same post with one mention issues no call |
| `ModerationScenarios.LocalAuthorBlocksEmptyHost` | main.go:87-88 | an author whose `host` is null adds `""` to the block list |

## Left out

- Loading `.env` and reading HOST, TOKEN and ANTENNA_ID (main.go:15-21). This is configuration I/O.
- Fetching the antenna's notes (main.go:23-61). The model starts from the fetched, decoded array. If the fetch or its decoding fails, nothing is processed, and the model does not represent that.
- Building, sending and logging HTTP requests, and the HTTP client (main.go:161-240). Each call is an event. The success of the admin/meta read and the 200 check of update-meta (main.go:235-236) are oracle booleans.
- JSON marshalling and decoding. Values are taken as already decoded. Numbers are exact reals rather than float64, and the bot never reads them.
- All logging with `fmt.Println`.
- The local write-back `settings["blockedHosts"] = blockedHosts` (main.go:143). The map is dropped right afterwards.
- Server behaviour beyond storing the list that was sent. Any normalisation the server applies to `blockedHosts` is not modelled, and neither are the effects of the deletes.
- Any other writer of the server settings during a run. The model is sequential: the settings one post leaves are exactly the settings the next post reads.

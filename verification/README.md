# Verified models for the libtorrent bindings

This project models the hard parts of the Rust bindings for libtorrent
(`rbtorrent`), of their C++ shim (`libctorrent`), of the header generators
(`scripts`), of the command-line client (`rsbtctl`) and of the daemon
(`rsbtd`), and proves what they promise. `dafny verify dfyconfig.toml` checks
everything.

## What is modelled

**Requests and responses.** libtorrent answers requests with alerts. Requests
for session statistics carry no identity and are matched by position; requests
to add a torrent are matched by a token, which later also identifies the
torrent's client data and its live handle. `Protocol.dfy` is the whole system
as a transition system: callers, the consumer of the alert stream, libtorrent
with its bounded alert queue, and senders that were taken out of the registry
but not yet sent. Each action is one critical section, one delivery made after
the lock was released, or one step of libtorrent, so its runs are the
interleavings of all threads. `StatsOrder.dfy`, `Accounting.dfy` and
`Lifecycle.dfy` prove invariants of every reachable state and of every run,
`ClientData.dfy` what value each entry of client data has.
`Requests.dfy` is the registry as it is written: fields behind a mutex, changed
in place. Each of its methods is proved to perform one action of the protocol
per critical section, with the mutex free whenever a waker or a user's `Drop`
can run; such a callback performs any finite list of calls to the same registry
and any steps of libtorrent. `Session.dfy` tears a session down once, in order.
`Wakeup.dfy` is the waiting loop against the notification permit.

What is assumed of libtorrent stands in `Protocol.Enabled`, `Protocol.Popped`
and `Protocol.Seen`, and nowhere else:

- requests for statistics are answered in posting order, once each;
- between two pops the dropped statistics responses are the last ones, and the
  `alerts_dropped` alert closes the batch;
- a token gets at most one add alert, after its request was posted, and at most
  one removed alert, after an add that survived; either may be dropped;
- a handle reports the token of its torrent, and 0 from the moment it expires,
  which may be any time after the torrent's removal; the registry asks when it
  processes the add alert, so the log of processed alerts holds what it saw.

One thing is assumed of the bindings themselves: a pending add is cancelled only
by the guard inside its future, after the future's receiver is gone.

**Resume data.** `Bencode.dfy` is the "bencoding" section of BEP 3 with a
recursive reader that is proved to accept exactly the encodings.
`ResumeData.dfy` splices an opaque blob into a sorted dictionary and gets it
back.

**Settings on the command line.** `Settings.dfy` is the coercion of a value by
an introspected type, the loops proved against a recursive specification.
Objects keep insertion order, as `serde_json` does with the `preserve_order`
feature that `Cargo.lock` turns on. `Names.dfy` is the codec between snake_case
and camelCase.

**Creating torrents.** `CreateTorrent.dfy` is the admission loop with 64-bit
arithmetic checked at every step; `FileMap.dfy` is the translation of file
indices through canonicalisation, which is assumed to permute the entries that
are not padding and to put padding anywhere.

**Smaller parts.** `Bitfields.dfy` (packed bits in both bit orders),
`Preprocessor.dfy`, `Guards.dfy` and `Slots.dfy` (how guards nest, the
generators' view of them, and the numbering of settings), `Shutdown.dfy` (the daemon's escalating stop, on
a simulated clock).

## What the code does that its comments or promises do not say

- `rbtorrent/src/alerts/requests.rs:186-187` says that response alerts arriving
  after an overflow was drained find an empty queue. They do only as long as
  nothing is enqueued before they arrive. `StatsOrder.LateResponseIsMisaligned`
  is a run in which request 2 is given the snapshot taken for request 1.
  `Accounting.AnswerIsSettled` says exactly when a request gets its own
  snapshot: if, at the moment it is enqueued, every response still owed has its
  request pending, that is, if every response to a request that a drain failed
  has been processed or was lost. Otherwise it gets an older snapshot, older by
  as many requests as were missing then, whatever happens later. A request is
  never given the snapshot of a later one, and no two requests the same.
- `rbtorrent/src/client_data.rs:18-19` states a round-trip law. It does not
  cover a value that serializes to nothing: such a value comes back exactly if
  it is what reading a missing key yields (`ResumeData.TypedRoundTrip`). An
  implementation can obey the law at every value and lose one
  (`ResumeData.LawIsNotEnough`).
- Packing a bitfield casts its length to `i32`: the round trip is the identity
  exactly up to `i32::MAX` bits (`Bitfields.PackRoundTrip`), and one bit more
  comes back as nothing (`Bitfields.TooManyBits`).
- `scripts/gen_settings.py:117-128` looks at the innermost guard only. An
  `#else` inside a skipped branch switches lines back on
  (`Slots.NestedElseLeaks`); the generator agrees with the preprocessor exactly
  on headers without one (`Slots.GuardsAgreeIff`).
- An emitted key is accepted by the shim exactly if its index fits 14 bits; the
  generator does not check that (`Slots.EmittedKeysAreValid`,
  `Slots.TooManySlots`).

## Model

| member | source | states |
|---|---|---|
| StatsOrder.InOrderStep | rbtorrent/src/alerts/requests.rs:163-240 | every action of every party keeps the pending statistics requests a suffix of the responses still owed |
| StatsOrder.PendingIsSuffixOfOwed | rbtorrent/src/alerts/requests.rs:73-89 | in every reachable state no pending request is orphaned; without an overflow the pending requests are exactly the responses owed, dropped futures or not |
| StatsOrder.ResponseMatches | rbtorrent/src/alerts/requests.rs:223-240 | in every reachable state the response at hand goes to the oldest pending request, and how far it is off equals how many owed responses nobody waits for; never to a request older than its own |
| StatsOrder.DrainIsSafe | rbtorrent/src/alerts/requests.rs:181-221 | the overflow alert is the last of its batch, reports statistics whenever a response was lost, and leaves nobody waiting for a lost one |
| StatsOrder.LostStaysLost | rbtorrent/src/alerts/requests.rs:181-221 | no response owed after a drain is one of those lost, so no later request can be matched with one |
| StatsOrder.LateResponseIsMisaligned | rbtorrent/src/alerts/requests.rs:181-187 | a reachable state in which a response that arrives after a drain is matched with another request |
| Accounting.ResolveMoves | rbtorrent/src/alerts/requests.rs:163-179 | handling an alert moves each sender out of the registry at most once and creates none |
| Accounting.SoundStep | rbtorrent/src/alerts/requests.rs:77-331 | the order, accounting and fairness invariants hold after every action if they held before |
| Accounting.EverySenderOnce | rbtorrent/src/alerts/requests.rs:73-127 | in every reachable state each issued sender is pending, or on its way, or consumed: exactly one of these; no other sender exists |
| Accounting.NoAddIsOrphaned | rbtorrent/src/alerts/requests.rs:181-284 | in every reachable state each pending add has its post or its answer still to come, or its add alert is on the way, or that alert was dropped and the overflow that fails the request is on the way |
| Accounting.FatesAreOwn | rbtorrent/src/alerts/requests.rs:223-284 | a statistics future never gets the snapshot of a later request nor one given to another, and its own without overflow; an add future gets what the alert for its own token says; an overflow failed it only if an alert reported its type as dropped; every other fate has its cause in the run |
| Accounting.ConsumedForEver | rbtorrent/src/alerts/requests.rs:188-284 | over every run a consumed sender stays consumed with the same result |
| Accounting.ClosedForEver | rbtorrent/src/alerts/requests.rs:314-331 | over every run after close nothing is pending and nothing is issued again |
| Accounting.AnswerIsSettled | rbtorrent/src/alerts/requests.rs:181-240 | over every run, which snapshot a request gets is settled when it is enqueued: its own exactly if all responses owed then have their requests pending, else one older by the number that have not |
| Lifecycle.AllTrackedStep | rbtorrent/src/alerts/requests.rs:242-312 | every action keeps, for every token, the registry's maps in step with the alerts processed about it |
| Lifecycle.LookupIsExact | rbtorrent/src/session.rs:520-528 | a token is found exactly when an add alert for it was processed with a handle that then reported this very token, and no removed alert was; the handle found is that alert's |
| Lifecycle.LiveIsFound | rbtorrent/src/alerts/requests.rs:257-284 | while its torrent lives, a token is found exactly from the moment its add alert was processed |
| Lifecycle.HandlesHaveData | rbtorrent/src/alerts/requests.rs:31-39 | handle keys are client-data keys, and the handle under a token is one attached under that token |
| Lifecycle.DataNeverRestarts | rbtorrent/src/alerts/requests.rs:143-161 | over every run a minted token that lost its client data never has any again |
| ClientData.DataChangesByStoring | rbtorrent/src/alerts/requests.rs:105-157 | whatever anybody does, an entry's value changes only by being set, to the value set, and an entry appears only under a freshly minted token with the data of that add |
| ClientData.DataIsLastStored | rbtorrent/src/alerts/requests.rs:31-34 | over every run an entry holds what an add or a replacement stored under its token last, or what it held before |
| ClientData.DataIsLastWritten | rbtorrent/src/alerts/requests.rs:129-131 | in every reachable state each entry is the last value a caller stored under its token; alerts only remove entries |
| Lifecycle.DuplicateAddSparesOriginal | rbtorrent/src/alerts/requests.rs:257-284 | an add whose handle names another token, or none because it expired, loses its own data, tells its own future, and leaves every other entry and all handles as they were |
| Lifecycle.BatchIsVisible | rbtorrent/src/alerts/mod.rs:1756-1768 | once a batch was walked, whatever others did meanwhile, a token it removed is not found; one it added and did not remove is found if its handle named it when asked, and so is every one whose handles have not expired by then |
| Requests.Registry.Reenter | rbtorrent/src/alerts/requests.rs:201-203 | a waker or user `Drop` runs with the mutex free, and whatever it calls keeps the registry valid and every earlier outcome |
| Requests.Registry.Send | rbtorrent/src/alerts/requests.rs:215-220 | sending outside the lock consumes exactly that sender, callbacks included |
| Requests.Registry.SendAll | rbtorrent/src/alerts/requests.rs:215-220 | sending a drained queue and map consumes exactly the drained senders, each with the given result |
| Requests.Registry.EnqueueSessionStats | rbtorrent/src/alerts/requests.rs:73-89 | refused exactly if closed or the post failed, and then nothing changes; else a fresh sender joins the queue in the order the request was posted |
| Requests.Registry.EnqueueAddTorrent | rbtorrent/src/alerts/requests.rs:91-107 | refused exactly if closed, the refused data dropped with the mutex free; else a fresh token from 1 up, its sender and its data put in place in one critical section |
| Requests.Registry.EnterAdd | rbtorrent/src/alerts/requests.rs:95-106 | that critical section: nothing changes if closed, else token, sender and data appear together |
| Requests.Registry.CancelAddTorrent | rbtorrent/src/alerts/requests.rs:109-115 | only the pending sender goes; client data stays |
| Requests.Registry.AbortAddTorrent | rbtorrent/src/alerts/requests.rs:117-127 | sender and client data of a refused post are reclaimed, the data dropped with the mutex free |
| Requests.Registry.AddTorrentCall | rbtorrent/src/session.rs:484-518 | succeeds exactly if open and posted; a refused post leaves no data and no pending sender behind; a closed registry changes only by what the refused data's own drop does |
| Requests.Registry.TorrentHandle | rbtorrent/src/alerts/requests.rs:133-141 | finds a torrent exactly between its surviving add and its removal, yields the handle of that add alert, with client data in place |
| Requests.Registry.ClientDataOf | rbtorrent/src/alerts/requests.rs:129-131 | the data found is the last value stored under the token |
| Requests.Registry.SetClientData | rbtorrent/src/alerts/requests.rs:143-161 | replaces only: an unknown token stays unknown; the value replaced, or the one refused, is dropped with the mutex free, and unless that drop calls back the one entry is all that changes |
| Requests.Registry.SwapData | rbtorrent/src/alerts/requests.rs:151-157 | the critical section of the replacement: the one entry changes, the old value comes out |
| Requests.Registry.Pop | rbtorrent/src/alerts/mod.rs:1756-1768 | when a batch is handed out the registry reflects all of it, as it was seen and in order, and nothing taken for it is still unsent |
| Requests.Registry.Process | rbtorrent/src/alerts/requests.rs:162-179 | the whole batch is processed in order; consumed senders keep their outcome |
| Requests.Registry.ProcessAlert | rbtorrent/src/alerts/requests.rs:166-177 | one alert, whatever its type, changes the registry as the protocol says and sends everything it took, whatever the callbacks do |
| Requests.Registry.HandleAlertsDropped | rbtorrent/src/alerts/requests.rs:188-221 | exactly the pending requests of the reported types fail, with the overflow error, after the lock was released |
| Requests.Registry.ResolveSessionStats | rbtorrent/src/alerts/requests.rs:223-240 | the oldest pending sender, if any, is sent the snapshot |
| Requests.Registry.ResolveAddTorrent | rbtorrent/src/alerts/requests.rs:242-284 | the handle is asked for its token now; a surviving add registers the handle and leaves all client data alone, any other reclaims the token's, whether or not a sender is left; the sender gets the alert's result |
| Requests.Registry.ResolveTorrentRemoved | rbtorrent/src/alerts/requests.rs:286-312 | data and handle of the token go together; token 0 is ignored |
| Requests.Registry.Close | rbtorrent/src/alerts/requests.rs:314-331 | every pending request fails with the closed error, handles stay as they are, client data of every posted add stays, and nothing is pending afterwards although callbacks ran |
| Session.SessionInner.Teardown | rbtorrent/src/session.rs:227-259 | the callback is unregistered, pending requests fail, then abort, free and proxy-drop happen in that order, once however often it is called; handles and client data of posted adds stay |
| Wakeup.AlwaysAwake | rbtorrent/src/alerts/mod.rs:1738-1745 | over every interleaving, alerts never sit behind a parked consumer without a permit stored or a callback under way |
| Wakeup.NoLostWakeup | rbtorrent/src/session.rs:217-224 | once the callbacks have returned, a consumer about to wait has a permit and a waiting one has been notified, if alerts are queued |
| Wakeup.QueuedIsFound | libctorrent/include/ctorrent/ct_alerts.h:79-86 | from there the consumer gets to pop again without another alert, and that pop takes all of them |
| Bencode.ReadsBack | libctorrent/src/session.cpp:570-575 | an encoding is read back whatever follows it |
| Bencode.ReadExactly | libctorrent/src/session.cpp:570-575 | whatever the reader accepts is the encoding of what it returns |
| Bencode.ReadIff | libctorrent/src/session.cpp:570-581 | both directions: the one value in front and the rest |
| Bencode.EncodingsArePrefixFree | libctorrent/src/session.cpp:566-581 | no encoding is a proper prefix of another, so a blob has one reading inside a file |
| Bencode.SpecificationExamples | libctorrent/src/session.cpp:570-575 | the spellings BEP 3 gives for a string, integers, a list and a dictionary |
| Bencode.FirstDigitWeighsMost | libctorrent/src/session.cpp:570-575 | numbers are decimal, most significant digit first |
| ResumeData.WriteResumeDataBufEx | libctorrent/src/session.cpp:559-592 | succeeds exactly for an empty blob or exactly one value, and tells a malformed blob from one that goes on after its value; an empty blob writes the plain output, any other the plain entries with the key in its place, its value the blob verbatim |
| ResumeData.LessIff | libctorrent/src/session.cpp:582-587 | the order of keys is that of their bytes: a proper prefix first, else the first byte that differs decides |
| ResumeData.PlainApartFromKey | libctorrent/src/session.cpp:582-587 | without that key, the same bytes are the plain output |
| ResumeData.SplicedIsDictionary | libctorrent/src/session.cpp:582-590 | the output is one dictionary whose keys ascend by their bytes: the key with the blob's value, and otherwise exactly the plain entries |
| ResumeData.ReadResumeDataEx | libctorrent/src/session.cpp:594-633 | refused exactly if libtorrent refuses; else the encoding of the first entry under the key of the dictionary in front, or nothing |
| ResumeData.FirstOfIs | libctorrent/src/session.cpp:616-622 | those bytes are the encoding of the value at the first place that has the key, and nothing exactly if no place has it |
| ResumeData.KeyIsText | libctorrent/src/session.cpp:45-45 | the key reads "rbt-data" |
| ResumeData.FindRawFinds | libctorrent/src/session.cpp:613-623 | walking the raw members finds the encoding of the first entry under the key, whatever follows the dictionary |
| ResumeData.RawRoundTrip | libctorrent/src/session.cpp:559-633 | what was written is read back byte for byte; plain output reads back as nothing |
| ResumeData.WriteWith | rbtorrent/src/session.rs:580-611 | a value's bytes are embedded, or no key is written if there are none |
| ResumeData.ReadWith | rbtorrent/src/session.rs:658-668 | the value is decoded from the encoding of that entry, or from nothing |
| ResumeData.TypedRoundTrip | rbtorrent/src/client_data.rs:13-25 | writing then reading is the identity exactly where the law holds, and for a value that writes no key exactly if it is the default |
| ResumeData.LawIsNotEnough | rbtorrent/src/client_data.rs:18-25 | an implementation that writes one value or nothing, obeys the law at every value, and loses one |
| Names.ToCamel | rsbtctl/src/settings_cli.rs:229-244 | the loop computes the specified camelCase name |
| Names.ToSnake | rsbtctl/src/settings_cli.rs:246-259 | the loop computes the specified snake_case name |
| Names.SchemaNameRoundTrip | rsbtctl/src/settings_cli.rs:229-259 | snake then camel is the identity exactly for names without underscores |
| Names.SettingNameRoundTrip | rsbtctl/src/settings_cli.rs:229-259 | camel then snake is the identity exactly for names without ASCII capitals whose underscores each precede an ASCII lower-case letter |
| Names.CamelIdempotent | rsbtctl/src/settings_cli.rs:229-244 | a camelCase name is accepted as it is |
| Names.CamelAt | rsbtctl/src/settings_cli.rs:229-244 | character by character: underscores go, and a character is made a capital exactly if one stood just before it |
| Names.SnakeIsLocal | rsbtctl/src/settings_cli.rs:246-259 | character by character: a capital becomes an underscore and its small letter, anything else stays |
| Names.LettersOnly | rsbtctl/src/settings_cli.rs:246-259 | capitals and small letters are those of the ASCII alphabet, every other character is left alone |
| Settings.FirstMatchIs | rsbtctl/src/settings_cli.rs:146-150 | an enum member is found exactly if one matches up to ASCII case; it is a schema spelling and finds itself again |
| Settings.AnyCasingIsAccepted | rsbtctl/src/settings_cli.rs:135-151 | any re-casing, letter by letter, of a schema name is accepted and becomes the first name it is a casing of; anything else is refused with the list of names |
| Settings.FindFieldIs | rsbtctl/src/settings_cli.rs:188-191 | the field found is the first one of that name, and none is found exactly if no field has it |
| Settings.ObjectKeysAreFields | rsbtctl/src/settings_cli.rs:180-198 | a coerced object has only names of schema fields for keys, each value fitting the first field of its name; a member that spells no field's name is refused |
| Settings.InsertIs | rsbtctl/src/settings_cli.rs:195-195 | a key stored again keeps its place, a new one comes last |
| Settings.RefusalsAreOwn | rsbtctl/src/settings_cli.rs:164-184 | which refusal a value of the wrong shape or of an unknown type gets |
| Settings.FirstBadItem | rsbtctl/src/settings_cli.rs:168-171 | a list is refused for its first item that cannot be coerced |
| Settings.FirstBadMember | rsbtctl/src/settings_cli.rs:186-195 | an object is refused for its first member that cannot be coerced, by its own spelling |
| Settings.CoerceJson | rsbtctl/src/settings_cli.rs:153-201 | the loops compute the specified coercion, errors included, and end |
| Settings.CoercionIsSound | rsbtctl/src/settings_cli.rs:153-201 | whatever coercion yields conforms to the type at every level: fields found in the schema once each, schema enum names, lists element-wise, nulls as they are |
| Settings.FixedPoints | rsbtctl/src/settings_cli.rs:153-201 | coercion leaves a value alone exactly if it conforms |
| Settings.CoercionIsIdempotent | rsbtctl/src/settings_cli.rs:153-201 | coercing again changes nothing |
| Settings.CoercesExactly | rsbtctl/src/settings_cli.rs:153-201 | coercion fails on nothing a user may type and accepts nothing else |
| Settings.CoercionKeepsMeaning | rsbtctl/src/settings_cli.rs:153-201 | the result says what the input said: same lists, same names up to case, each field the value of the last member that spelled it |
| Settings.UnwrapType | rsbtctl/src/settings_cli.rs:214-227 | the loop finds the named type and whether a list wraps it |
| Settings.UnwrapIs | rsbtctl/src/settings_cli.rs:214-227 | under any wrappers that is the innermost type, and whether a list is among them |
| Settings.CoerceRaw | rsbtctl/src/settings_cli.rs:89-133 | exactly which raw values are accepted, kind by kind, and what each becomes: the number or truth value parsed, the schema name it matches, what the JSON means; the result conforms to its type and coercion would leave it alone |
| CreateTorrent.SplitIff | rbtorrent/src/create.rs:23-27 | the components are the one way to take a path apart at its separators: free of separators, and joined by them they give the path |
| CreateTorrent.RootIsPrefix | rbtorrent/src/create.rs:23-27 | the first of several components is the text before the first separator |
| CreateTorrent.RootsAgree | rbtorrent/src/create.rs:88-113 | comparing every root with the first is the same as all paths lying strictly under one shared root |
| CreateTorrent.Validate | rbtorrent/src/create.rs:57-114 | accepts exactly the lists with non-negative sizes, a total that fits, distinct clean paths and one root; otherwise reports, of the first file with a defect, the first test in order that it fails; no step overflows |
| CreateTorrent.FitsBudget | rbtorrent/src/create.rs:118-130 | the saturating arithmetic decides the budget exactly |
| CreateTorrent.New | rbtorrent/src/create.rs:38-130 | accepts exactly the admissible lists, gives a reason that holds otherwise; no path of an accepted list has an empty, `.` or `..` component; an accepted list has at most 2^30-1 padded pieces |
| CreateTorrent.CleanIff | rbtorrent/src/create.rs:79-87 | the component test refuses exactly the paths with a component that is empty, one dot or two dots |
| CreateTorrent.PieceSizeIff | rbtorrent/src/create.rs:39-54 | a piece size is left open or a power of two from 2^14 to 2^27 |
| CreateTorrent.AdmissibleIff | rbtorrent/src/create.rs:38-130 | what is accepted, with every limit written out: sizes, total, distinct plain paths under one root, pieces rounded up plus files at most 2^30-1 |
| CreateTorrent.CtCreateTorrentNew | libctorrent/src/create_torrent.cpp:73-132 | the shim's checks, exactly, with no 64-bit step overflowing |
| CreateTorrent.PaddedAtMost | libctorrent/src/create_torrent.cpp:117-119 | padding adds at most one piece for each file |
| CreateTorrent.CeilDivIs | libctorrent/src/create_torrent.cpp:117-121 | rounding up gives the least number of pieces that hold the bytes |
| CreateTorrent.PieceCountBounded | rbtorrent/src/create.rs:115-130 | a list within the budget stays within the piece count libtorrent can represent |
| CreateTorrent.ShimAgrees | libctorrent/src/create_torrent.cpp:74-132 | a list the Rust layer admits is refused by the shim exactly for libtorrent's own size limits or for contradictory mode flags |
| FileMap.CreateTorrent.MapFiles | libctorrent/src/create_torrent.cpp:147-166 | refused exactly if two canonical files share a path; else every caller's entry is mapped to the canonical file with its path or to -1 if there is none |
| FileMap.CreateTorrent.SetHash2 | libctorrent/src/create_torrent.cpp:227-265 | accepted exactly for a mapped file, a piece that starts inside it and a hash that is not all zeros; then that one slot changes, else nothing |
| FileMap.PieceInRange | libctorrent/src/create_torrent.cpp:248-250 | a piece number passes the rounded-up bound exactly if the piece starts inside the file |
| FileMap.CanonIsUnambiguous | libctorrent/src/create_torrent.cpp:154-161 | distinct input paths are never refused after canonicalisation |
| FileMap.TranslationIsExact | libctorrent/src/create_torrent.cpp:147-166 | each file is sent to its own canonical entry, padding to -1, no two files to one entry, and no canonical file is left out |
| FileMap.HashGoesToOwnFile | libctorrent/src/create_torrent.cpp:227-265 | through that mapping a hash is taken exactly for a piece of one of the caller's files that is not padding, and goes to the entry equal to that file, which no other index reaches |
| Bitfields.BoolsToBitfield | rbtorrent/src/params.rs:989-998 | every bit is stored where the reader looks, the first of each byte weighing 128 and the last 1, the rest of the last byte is zero, the count wraps as a 32-bit cast does |
| Bitfields.PackRoundTrip | rbtorrent/src/params.rs:976-998 | unpacking what was packed is the identity exactly up to 2^31-1 bits |
| Bitfields.TooManyBits | rbtorrent/src/params.rs:976-998 | 2^31 bits, which come back as none |
| Bitfields.PieceBitfieldReads | rbtorrent/src/types.rs:71-88 | `get`, `iter` and `count_ones` agree with the plain sequence that was packed |
| Bitfields.WriteDropped | libctorrent/src/alerts.cpp:366-378 | the mask written is read back as exactly the dropped types, the first of each byte weighing 1 and the last 128 |
| Bitfields.DroppedAgrees | rbtorrent/src/alerts/requests.rs:197-200 | the reader finds in the mask exactly the types that were put in, for any queried id |
| Guards.ParseAlerts | scripts/gen_alerts.py:44-90 | one alert for each macro that no open ABI guard covers, in order, with its own name and id and the base of the last uncovered struct before it; a mismatch is reported exactly if such a macro does not carry that struct's name |
| Guards.CoveredIff | scripts/gen_alerts.py:56-75 | a line is skipped exactly if an ABI guard opened before it was not closed, counting guards opened and closed |
| Preprocessor.OpenersAre | scripts/gen_alerts.py:56-75 | the stack of guards holds exactly those opened and not closed, for any sequence of directives |
| Slots.ParseSettingsEnum | scripts/gen_settings.py:100-157 | the settings up to the first end marker, if no line before it is rejected; else failure, because a line is rejected or there is no end marker |
| Slots.EmittedIff | scripts/gen_settings.py:137-155 | a setting is emitted exactly for each active declaration that takes a slot and is not deprecated; its key is the base plus the slots before it |
| Slots.EmittedAre | scripts/gen_settings.py:107-156 | the same, on the lines alone: active under the innermost guard, not ending in `_internal`, not beginning with `deprecated_`, not an alias; the key counts the slots taken before |
| Slots.ActiveIff | scripts/gen_settings.py:110-128 | a line is looked at exactly if no guard is open or the innermost open one has had its `#else` |
| Slots.EndsIff | scripts/gen_settings.py:137-139 | the enum ends at an active declaration whose name ends in `_internal` |
| Slots.FailsIff | scripts/gen_settings.py:110-150 | what is rejected, on the lines alone |
| Slots.ValidKeyIff | libctorrent/src/settings.cpp:39-53 | the keys the shim accepts, range by range |
| Slots.KeysAscend | scripts/gen_settings.py:151-155 | keys strictly ascend, all below the base plus the slots counted |
| Slots.GuardsAgreeIff | scripts/gen_settings.py:117-128 | the innermost-guard test agrees with the preprocessor at every line exactly if no `#else` stands inside a skipped branch |
| Slots.NestedElseLeaks | scripts/gen_settings.py:117-128 | three lines on which it does not |
| Slots.CountByKind | scripts/gen_settings.py:267-274 | the least count that every index of the list is below |
| Slots.EmittedKeysAreValid | libctorrent/src/settings.cpp:39-58 | every emitted key is valid for any table as long as the generated count, exactly as long as its index is below 0x4000 |
| Slots.TooManySlots | scripts/gen_settings.py:151-154 | a header that ends properly with no line rejected, whose last key no table makes valid |
| Shutdown.StopServer | rsbtd/src/lib.rs:156-177 | requests are cancelled exactly when the server outlives its grace, it is aborted exactly when neither it nor the cancelled requests end within the second one, and otherwise it has finished, at the earlier of the two |
| Shutdown.StopSockets | rsbtd/src/lib.rs:178-188 | the sockets are cancelled exactly when they outlive their own grace, counted from the moment the server is gone, and are drained the moment they have closed: at once if they had before |
| Shutdown.StopWith | rsbtd/src/lib.rs:155-193 | the stop signal comes once and first, the engine goes down once and last, after the server is gone and the sockets are drained; no cancellation fires before its grace ran out; all of it takes bounded time |

## Left out

- Protocol.Enabled, Protocol.Popped and Protocol.Seen: assumptions about libtorrent, which is not part of this model.
- Requests.Registry.CancelAddTorrent: that a cancelled add has no receiver any more is assumed, because it rests on the order in which a future drops its parts.
- Requests.Registry.Close: client data of an add that is minted but not yet posted may be reclaimed by a callback; client data may be replaced by one.
- Requests.Registry.Reenter: callbacks run to completion inside the call that triggers them and come from one finite script; calls by other threads between two critical sections are in the runs of the protocol, not in the class.
- Requests.Registry.Pop: a failing pop, which leaves the registry alone, is not modelled.
- Requests.Registry.EnqueueSessionStats: token counters and posting numbers are unbounded, where the source counts tokens in 64 bits.
- Session.SessionInner.Teardown: the native calls are entries in a log; the atomic swap is one step of one thread.
- Wakeup.QueuedIsFound: that the executor ever polls again is not modelled; only that nothing else is missing.
- Bencode.ReadIff: libtorrent's limits on depth, tokens and size, and what it accepts beyond the canonical form, are not modelled.
- ResumeData.WriteResumeDataBufEx: the entry libtorrent writes for a torrent is an arbitrary sorted dictionary.
- ResumeData.ReadResumeDataEx: whether libtorrent accepts the resume data is a parameter.
- Names.ToCamel: case mapping is ASCII; other characters pass unchanged.
- Settings.CoerceRaw: the JSON and number parsers are parameters, and a floating-point NaN or infinity, which becomes null, is not a value of the model.
- Settings.CoerceJson: type references are well formed; an introspection response with missing parts is not modelled.
- The selection of output fields, which builds query text, is not modelled.
- CreateTorrent.New: what happens to an accepted list inside libtorrent, and symlinks, times and attributes, are not modelled.
- CreateTorrent.CtCreateTorrentNew: errors are reported as a refusal without its text, and null paths are not modelled.
- FileMap.CreateTorrent.SetHash2: the all-zero check is on a 32-byte sequence; the kinds of error are one refusal.
- Guards.ParseAlerts: the checks for duplicate ids and for an empty list after the loop are not modelled, and regular expressions are decided beforehand.
- Slots.ParseSettingsEnum: documentation comments and the enums of named values are not modelled.
- Slots.CountByKind: one kind at a time.
- Shutdown.StopWith: the transports are given by the times at which they would end; what the engine does in its own grace, and the choice in `run` between a stop during startup and a later one, are not modelled.
- The flag that admits one alert receiver at a time, and the release of the receiver, are one swap and one store.
- C accessors, filters, peer classes, generated tables, networking, GraphQL transport, the web interface and packaging would only add field copies and I/O.

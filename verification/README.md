# Proxy subscription registry: a verified model

A node registry collects proxy nodes (`POST /register`), lists and deletes them, and serves them as subscriptions in
five formats. It exists twice: a Go server that keeps its nodes in a map and a JSON file, and a Cloudflare Worker that
keeps them in a database table. An installer sets up the nodes and, among other things, tunes `nginx.conf`. This project
models the three and proves what they promise. Everything below is proved for all inputs, all runs and all interleavings
unless a condition is named; conditions are exact (if and only if) wherever the table says so.

Strings are sequences of bytes: a `char` below 256 is one byte (`Text.Bytes`). A JavaScript string is represented by its
UTF-8 encoding; its length in UTF-16 units, its white space and what `btoa` makes of it are functions of these bytes
(`Text.Utf16Length`, `Text.TrimSpace`, `Base64.Btoa`).

## How the project is laid out

| files | content |
|---|---|
| `Text`, `Unicode`, `Numbers`, `Escape`, `Base64`, `Order` | string operations, what they mean for the characters of UTF-8 text, decimal numbers, percent and form escaping, RFC 4648 base64, byte-wise order and sorting |
| `Nodes`, `Validators`, `FormatNames`, `Groups` | nodes, the proxies they announce, the admission checks of Go, Worker and installer, the format names, and when the names in a group are distinct |
| `Store`, `Admission`, `Machine`, `Recovery`, `Ledger`, `Solo`, `Linearisation`, `Answers` | the Go registry as a step machine: any number of handler threads with program counters, one lock, two file paths, a save that can fail at each step, crash and restart; the invariant; linearisation, publication, recovery, validity, the ledger of a run (which request made which change, and in what order), progress, every run as a sequential one, what an answer means for the data file |
| `Server` | the same server as objects called one request at a time: disk, handlers, constructor |
| `Database`, `Worker`, `Interleaving`, `Simulation`, `Compatibility` | the Worker's table under interleaved statements, its handlers, its requests interleaved at their statements, the simulation of the Go registry, and the same subscriptions from both |
| `Links`, `Yaml`, `Clash`, `Shadowrocket`, `SingBox`, `Formats`, `Subscription` | the printers of both implementations as loops, a parser for each format, round trips, agreement across formats and across implementations |
| `Compaction` | the command line's in-place deletion loops |
| `Rewriting`, `Tuning`, `Matching`, `NginxEffect`, `Nginx`, `NginxScript` | the installer's rewriting of `nginx.conf`: its replacements and expressions, what they mean in terms of where texts occur, what each stage leaves, and when running it again changes nothing |

## What does not hold unconditionally

Each of these is a statement with its exact condition in the table; the code is modelled as it is.

- A link list gives back a shadowsocks record unless its cipher name contains a colon (`Links.RecoveredExactly`,
  `Links.ColonMoves`).
- Go writes a space as `+`, so strict percent decoding undoes the escaping only for texts without a space
  (`Escape.StrictRoundTrip`).
- An IPv6 literal is printed without brackets, so the host ends at its first colon for a strict reader
  (`Links.UnbracketedHost`).
- A Clash document is readable exactly when no printed value holds a control character (`Clash.ClashRoundTrip`).
- A Shadowrocket value comes back exactly when it has no line break and no literal `%2C`
  (`Shadowrocket.SafeValueRestored`). Names that differ only in a comma and a space become one
  (`Shadowrocket.NamesCollide`); the names in the group are distinct exactly under the condition of
  `Shadowrocket.EntryNamesDistinct`.
- The two registries, although meant to be interchangeable (`docs/cloudflare-registry-design.md:5`), part in the cases
  below. `Simulation.RegistriesAgree` and `Compatibility.RegistriesServeTheSame` say that there are no others.
  - IPv6 literals: Go takes them, the Worker does not.
  - Names longer than 80 bytes but not than 80 UTF-16 units, such as 27 Chinese characters: the Worker takes them, Go does
    not (`Validators.LongNameDiffers`).
  - Bodies and ids that the two do not decode alike: 400 from Go and 500 from the Worker where neither can, and any
    other difference where only one can or the results differ (`Admission.Both`).
  - `Authorization` headers: the admin secret lists and deletes nodes on the Worker; a header outside ASCII may be read
    differently.
  - Format names: Go trims white space around them and takes U+0130 for an i, the Worker does not
    (`FormatNames.FormatsRecognised`).
  - Shadowsocks ciphers and passwords that are not ASCII: the Worker's `btoa` encodes them as Latin-1, or throws, and then
    the whole link list is answered 400 (`Base64.JsEncodesLikeGo`, `Links.LinkListsAgree`).
  - A configuration name that begins with U+0085 or U+FEFF, white space common to both aside: only one of them trims it
    (`Shadowrocket.ConfAgree`).
- Requests to the Go registry can be put in one order (`Linearisation.Linearisable`). Requests to the Worker can, except
  for a delete that is overtaken by another one between its own select and its own delete: it is answered 200 for a node
  that is already gone (`Interleaving.StatementServes`, `Interleaving.BothDeletesSucceed`).
- A server that cannot read its data file starts empty, and its first save replaces the file, so writes answered 200 are
  lost (`Solo.UnreadableRestartLosesWrites`, `Recovery.BlindRenameForgets`). Recovery is proved for every run in which no
  such server saves.
- The nginx tuning is not always settled after one run. Besides `# # multi_accept on;` there is a second exception:
  uncommenting can take the word boundary from the line that sets the file limit (`NginxScript.LimitCanVanish`).

## Model

| member | source | states |
|---|---|---|
| `Store.SortedNodesLocked` | go-registry/store.go:13-22 | however the map is walked, the answer is the one listing: every stored node once, each id before the next by their first differing byte or by being its beginning |
| `Order.LessMeaning` | go-registry/store.go:18-20 | the recursive comparison is the order by the first difference: after a common beginning the one text ends, or has the smaller byte |
| `Order.SortCanonical` | go-registry/store.go:18-20 | two enumerations of the same nodes in different orders sort to the same list, because the keys are distinct |
| `Order.AscendingUnique` | go-registry/store.go:18-20 | a strictly ascending list is determined by its elements alone |
| `Store.RebuildListing` | go-registry/server.go:18-21 | loading a saved listing gives back the very map that was saved |
| `Store.RebuildMeaning` | go-registry/server.go:18-21 | of several entries with one id, the last one stands |
| `Store.ReplayKeeps` | go-registry/server.go:69-73 | in a replay of requests, the last request on a node decides its fate |
| `Machine.BootInv` | go-registry/server.go:13-22 | a fresh process on any data file satisfies the invariant |
| `Machine.StepInv` | go-registry/server.go:69-81 | every step of every handler, every failing save and every crash keeps the invariant: one lock holder, memory is the replay of the log, the file the replay of its durable prefix, the holder's snapshot is the listing of the current map |
| `Recovery.OneHolder` | go-registry/server.go:185-194 | in every reachable state at most one handler is past the lock |
| `Ledger.MemoryIsReplay` | go-registry/server.go:185-194 | in every run the map is the replay of the changes made since the last restart, read off the run's own steps, each once and in order, saved or not; and the file is the same for the run up to its last rename |
| `Ledger.ChangeIsAdmitted` | go-registry/server.go:163-194 | every change belongs to a request that arrived before it and passed method, token and content checks for just this operation, and its handler was the last to take the lock |
| `Ledger.ChangesInLockOrder` | go-registry/server.go:69-73 | changes happen in the order in which the lock was taken, and no two of them belong to the same request |
| `Ledger.OnlyAdmittedRequestsCount` | go-registry/server.go:163-194 | the log lists exactly these changes in lock order: an admitted request is in it at most once, a refused one never, and a write done before another request arrived comes before it |
| `Recovery.ReadsAreLinearised` | go-registry/server.go:99-101 | a reader answers with the one listing of the replayed log at the moment it holds the lock |
| `Recovery.RenamePublishesOwnSnapshot` | go-registry/config.go:77-81 | although all handlers share one temporary path, a rename publishes the renaming handler's own snapshot, the listing of the map at that moment |
| `Recovery.FileIsComplete` | go-registry/config.go:68-82 | the data file is as it was found or a complete sorted listing of the durable map, never a partial write |
| `Recovery.NoAcknowledgedWriteIsLost` | go-registry/server.go:69-81 | unless a process that could not read the file has renamed over it, a crash at any step gives back the replay of all requests up to the last successful rename, and every write answered 200 is among them |
| `Recovery.AcknowledgedWriteSurvives` | go-registry/server.go:191-203 | on the same condition, after a restart, a registration answered 200 is found and a deletion answered 200 holds, unless a later saved request names the same node |
| `Recovery.BlindRenameForgets` | go-registry/server.go:14-17 | the other half, in every state: after such a rename the file stands for the requests of that process alone, and every node they do not name is gone |
| `Answers.AnsweredWriteIsOnFile` | go-registry/server.go:69-81 | in terms of the run's steps, under the same condition: the change made for a request that was answered 200 is one of those the data file stands for, at every later moment, through any number of restarts; it did what the last request that arrived on its thread asked for |
| `Answers.AnsweredWriteSurvives` | go-registry/server.go:191-203 | so after a restart a registration answered 200 is found and a deletion answered 200 has held, unless the change of a later request on the same node also reached the file |
| `Linearisation.Linearisable` | go-registry/server.go:41-204 | every run since the last restart is a sequential one: served one after the other in the order in which they held the lock, from the map the process started with, the requests get exactly their answers, listings included, or 500 where the save failed, with the same map; and when the lock is free the result is the map |
| `Linearisation.TurnsInRealTime` | go-registry/server.go:185-194 | this order is that of real time: a request answered before another arrives is served before it, and none is served twice |
| `Linearisation.EveryAnswerHasItsPlace` | go-registry/server.go:41-204 | every answer is accounted for: a refusal is what the sequential service answers on any map, and every other answer belongs to one of the turns |
| `Recovery.ValidityIsKept` | go-registry/server.go:63-73 | from a valid or absent file, every node in memory, on disk and after any number of restarts passes validation |
| `Recovery.LockIsReleased` | go-registry/server.go:185-194 | from every state with the lock held, the holder alone can run on until the lock is free: no branch keeps it |
| `Solo.SoloServes` | go-registry/server.go:41-82 | a handler running alone through its steps has exactly the effect and the status of the sequential service, and a write answered 200 is in the file |
| `Solo.UnreadableRestartLosesWrites` | go-registry/server.go:14-17 | from every state with the invariant: after a restart that cannot read the file and one more registration answered 200, the file stands for that one node, and every other registration answered 200 is lost |
| `Admission.AdmittedIsValid` | go-registry/server.go:63-67 | what is stored after stamping is still a valid node |
| `Server.Disk.WriteJSONAtomic` | go-registry/config.go:68-82 | the file is replaced as a whole or not at all, whichever step fails; what is left in the temporary file in each case |
| `Server.RegistryServer.constructor` | go-registry/server.go:13-22 | the loop fills the map a readable file stands for, where of several entries with one id the last stays and nothing else comes in; otherwise the server starts empty |
| `Server.RegistryServer.HandleRegister` | go-registry/server.go:41-82 | 405, 401 and 400 in this order for verb, token and body, with nothing changed; otherwise memory gains exactly the stamped node, and 200 is answered exactly when the file is the listing of the new map, 500 when the file is as before |
| `Server.RegistryServer.HandleAPINode` | go-registry/server.go:163-204 | 405, 401, 400 and, without a save, 404 for an unknown node; otherwise exactly that node is gone from memory, and from the file when answered 200 |
| `Server.RegistryServer.HandleAPINodes` | go-registry/server.go:113-161 | behind the verb and token checks: as many entries as stored nodes, ids in order, every id there, and each entry shows name, region, host, ip, time stamp and the types and ports of the node with its id |
| `Server.RegistryServer.HandleSub` | go-registry/server.go:84-111 | 405, 401 and 400 for verb, token and a trimmed format Go does not know; otherwise the subscription printed from the one listing |
| `Server.Contains` | go-registry/util.go:10-20 | a token is known when it is in the list and not empty |
| `Admission.BearerMeaning` | go-registry/util.go:22-28 | a token is what follows `Bearer ` at the very start of the header, trimmed; without that beginning there is none |
| `Server.Restart` | go-registry/server.go:13-22 | a process started on the file of one whose last write was answered 200 knows exactly what that one knew |
| `Validators.HostAgreement` | cloudflare-registry/src/validators.js:36-40 | the Worker accepts a host exactly when Go accepts it and it is no IPv6 literal |
| `Validators.LoopbackDiffers` | go-registry/store.go:63-71 | an IPv6 literal that Go accepts and the Worker refuses |
| `Validators.InstallerHostAgreement` | install-node.sh:168 | the installer's check, cut at 253 characters, is exactly the Worker's |
| `Validators.DottedQuadIsHost` | go-registry/types.go:15-18 | every dotted quad also matches the host pattern, so nothing but IPv6 separates the two checks |
| `Validators.ValidMeaning` | go-registry/store.go:24-61 | the first-problem scan reports nothing exactly when schema, id, name, host and every protocol entry are in order |
| `Validators.NodeIDMeaning` | go-registry/types.go:16 | an id is accepted exactly when it is a letter or digit and then 1 to 63 letters, digits, dots, underscores or hyphens |
| `Validators.HostMeaning` | go-registry/types.go:17 | a host matches exactly when it begins and ends with a letter or digit and has at most 252 letters, digits, dots or hyphens in between; for the installer at least one, and a dot |
| `Validators.IPv4Meaning` | go-registry/store.go:67 | an IPv4 literal is exactly four numbers below 256, printed in decimal and joined by dots |
| `Validators.IPv6Meaning` | go-registry/store.go:67 | groups of one to four hexadecimal digits are an IPv6 literal exactly when there are eight, or at most seven around one double colon, an IPv4 literal at the end counting for two |
| `Validators.NodeAgreement` | cloudflare-registry/src/validators.js:4-40 | both validators give the same verdict exactly on the nodes that are not disputed (an IPv6 literal, or a name too long in bytes but not in UTF-16 units, on an otherwise sound node), and without these the same reason |
| `Validators.LongNameDiffers` | cloudflare-registry/src/validators.js:8 | 27 characters of three bytes each are too long for Go only |
| `Unicode.UnitsOf` | cloudflare-registry/src/validators.js:8 | the length of a JavaScript string, read off its UTF-8 bytes: every character counts one, from U+10000 on two |
| `Database.OneRowPerNode` | cloudflare-registry/src/db.js:29-53 | under any interleaving of statements there is at most one row per node id |
| `Database.RowHistory` | cloudflare-registry/src/db.js:29-65 | under any interleaving, a row exists exactly when an upsert came after the last delete; its fields are those of the last upsert, its `created_at` that of the first upsert since |
| `Database.Table.UpsertNode` | cloudflare-registry/src/db.js:29-53 | the node is found afterwards with its new time stamp, and every other node's row is as before |
| `Database.Table.DeleteNode` | cloudflare-registry/src/db.js:60-65 | true exactly when the node had a row; afterwards it has none and all others are as before |
| `Database.Table.ListNodes` | cloudflare-registry/src/db.js:55-58 | every row as a node with the same columns, each once, ids in the order by the first difference |
| `Worker.HandleRegister` | cloudflare-registry/src/index.js:36-57 | 405, 401, 500 and 400 in this order for verb, token, body and validation, with the table unchanged; on 200 the registered node is found and every other row is as before |
| `Worker.HandleApiNodes` | cloudflare-registry/src/index.js:86-94 | behind the verb and token checks: as many entries as rows, ids in order, and every row shown by an entry |
| `Worker.MayManageMeaning` | cloudflare-registry/src/index.js:88-91 | nobody lists or deletes nodes without a token, even where no admin secret is set |
| `Worker.WorkerBearerMeaning` | cloudflare-registry/src/auth.js:13-17 | the Worker's token is what follows `Bearer ` at the very start of the header, trimmed |
| `Worker.HandleApiNode` | cloudflare-registry/src/index.js:103-131 | one request at a time: 405, 401, 500, 400 and 404, with the table unchanged; on 200 the node is gone and every other row is as before |
| `Worker.HandleSub` | cloudflare-registry/src/index.js:59-84 | 405 and 401 for verb and token, 400 for an unknown format and when `btoa` throws; otherwise the body of the named format for the rows in id order |
| `Interleaving.TableIsSerial` | cloudflare-registry/src/db.js:29-65 | however requests are interleaved at their statements, the table is what the executed statements leave one after the other |
| `Interleaving.RowOfEveryRun` | cloudflare-registry/src/db.js:29-65 | in every run the row of a node is the one its upserts and deletes, in the order of their execution, ask for |
| `Interleaving.StatementServes` | cloudflare-registry/src/index.js:36-131 | in every run each statement either takes a delete on from the row it has found, or answers its request with the table the request served on its own would leave, and with its status exactly when it is no overtaken delete |
| `Interleaving.RefusalServes` | cloudflare-registry/src/index.js:36-115 | a request refused before any statement on nodes is refused by the sequential service on every table |
| `Interleaving.DeleteAnswers` | cloudflare-registry/src/db.js:60-65 | a delete is answered 404 exactly when its own select finds no row; otherwise 200, and right after its own delete there is none |
| `Interleaving.BothDeletesSucceed` | cloudflare-registry/src/db.js:60-65 | from any state with the row, two deletes of it can both be answered 200, where the sequential service answers the second 404 |
| `Simulation.RegistriesAgree` | cloudflare-registry/src/index.js:36-131 | for any trace of registrations, deletions, listings and subscriptions, whatever either side makes of bodies, ids and headers: the two registries give equal statuses and hold the same nodes after every request exactly when every request is compatible with what is stored when it arrives |
| `Simulation.SameBodyAgreed` | cloudflare-registry/src/index.js:46-52 | a body that both decode alike is compatible exactly when the two validators do not part on it |
| `Simulation.HeaderAgreed` | cloudflare-registry/src/index.js:103-108 | with the same tokens enabled, the two agree on an ASCII header, except that the Worker lists and deletes nodes for the admin secret |
| `Simulation.StatusesAgree` | cloudflare-registry/src/index.js:36-131 | where both sides decode alike, equal statuses alone tell: they are all equal exactly when every request is compatible, and then the two hold the same, valid nodes |
| `Simulation.SerialAgree` | cloudflare-registry/src/index.js:36-131 | two request machines whose single steps agree stay in step over a whole trace exactly when each event is compatible with the state it meets |
| `Simulation.WorkerSimulatesGo` | cloudflare-registry/src/db.js:55-58 | after every request of a compatible trace, Go's sorted listing equals the Worker's query answer, time stamps aside |
| `Compatibility.RegistriesServeTheSame` | docs/cloudflare-registry-design.md:5-16 | end to end: after the same compatible requests, a subscription read from either registry is the same exactly when what is stored is printed alike: ASCII secrets for links and base64, names both trim alike for the configuration, always for Clash and sing-box |
| `Compatibility.AskBoth` | docs/cloudflare-registry-design.md:5-16 | the same of what the two request handlers return: Go always answers, and the Worker's answer reads the same exactly on that condition |
| `Escape.FormRoundTrip` | go-registry/renderers.go:45-51 | form decoding recovers every byte string from all three escapings in use |
| `Escape.StylesDiffer` | cloudflare-registry/src/renderers.js:40-49 | for every byte: the three escapings agree on it exactly when it is no space, tilde, asterisk, exclamation mark, apostrophe or parenthesis |
| `Escape.EscapeMeaning` | go-registry/renderers.go:45-51 | for every byte and style: letters, digits and the marks of that style stay, a space is a plus sign or `%20`, and the rest is a percent sign and two upper-case hexadecimal digits |
| `Escape.StrictRoundTrip` | go-registry/renderers.go:45-51 | decoding by section 2.1 of RFC 3986 recovers it exactly when the escaping is the Worker's component escaping or there is no space |
| `Base64.RoundTrip` | go-registry/renderers.go:15-17 | every byte string is recovered, in both alphabets, padded or not |
| `Base64.Vectors` | go-registry/renderers.go:15-17 | test vectors of section 10 of RFC 4648 |
| `Base64.PackBits` | go-registry/renderers.go:15-17 | three bytes and their four sextets are one number of 24 bits; one or two bytes at the end are filled up with zero bits (section 4 of RFC 4648) |
| `Base64.Alphabets` | go-registry/renderers.go:15-17 | the digits are those of tables 1 and 2 of RFC 4648 |
| `Base64.UnpadIsRawUrl` | cloudflare-registry/src/renderers.js:230-237 | the Worker's chain of encoding, swapping two digits and stripping the padding is Go's raw URL encoding |
| `Base64.JsEncodesLikeGo` | cloudflare-registry/src/renderers.js:230-237 | on a JavaScript string that chain gives what Go gives exactly when the string is ASCII; elsewhere it throws or encodes other bytes |
| `Unicode.Latin1Of` | cloudflare-registry/src/renderers.js:230-233 | `btoa` takes every character up to U+00FF as the byte of its number and throws for any other |
| `Links.GoRenderLinks` | go-registry/renderers.go:30-57 | the loop prints one link per proxy, in node and protocol order, joined by line feeds and with a final one |
| `Links.WorkerRenderLinks` | cloudflare-registry/src/renderers.js:36-59 | the same for the Worker's link; no list at all as soon as `btoa` throws for one of them |
| `Links.GoTrojanLink` | go-registry/renderers.go:36-48 | the whole link: escaped password, host, port, the parameters sorted by key after being set, which is `peer`, `security`, `sni`, no question mark without any, and the escaped name |
| `Links.WorkerTrojanLink` | cloudflare-registry/src/renderers.js:40-49 | the whole link of the Worker, with its escapings and with `peer`, `sni`, `security` in the order in which they are set |
| `Links.GoShadowsocksLink` | go-registry/renderers.go:50-51 | the whole link: cipher and password joined by a colon in unpadded URL base64, host, port and the escaped name |
| `Numbers.PrintMeaning` | go-registry/renderers.go:44-51 | a port is printed digit by digit, the units last |
| `Links.LinkRoundTrip` | go-registry/renderers.go:36-51 | one parser, which also insists that `peer` repeats `sni`, undoes Go's printer, and reads the same from the Worker's link exactly when the shadowsocks secret is ASCII, whatever the query order and space escaping |
| `Links.LinkListRoundTrip` | go-registry/renderers.go:30-57 | Go's list parses to the printed proxies in order, the empty list included, exactly when no cipher name holds a colon |
| `Links.LinkListsAgree` | cloudflare-registry/src/renderers.js:36-59 | the Worker's list exists exactly when no secret has a character above U+00FF, and reads like Go's exactly when all secrets are ASCII |
| `Links.RecoveredExactly` | go-registry/renderers.go:51 | a shadowsocks record survives exactly when its cipher has no colon |
| `Links.ColonMoves` | go-registry/renderers.go:51 | a cipher with a colon is cut there: the rest moves to the password |
| `Links.UnbracketedHost` | go-registry/renderers.go:44-52 | a reader that takes the port after the first colon finds the host exactly when it has no colon |
| `Yaml.TwoPassesAreOne` | go-registry/util.go:79-83 | the two replacement passes escape every backslash and every quote once |
| `Yaml.QuoteRoundTrip` | go-registry/util.go:79-83 | the quoted form is self-delimiting: a scanner gets back exactly the value and the following text, exactly when there is no control character |
| `Yaml.Builder.WriteLine` | go-registry/renderers.go:59-67 | the text built so far is the lines written so far |
| `Clash.GoRenderClash` | go-registry/renderers.go:59-135 | the loops build the document of all proxies and of a group naming them |
| `Clash.WorkerRenderClash` | cloudflare-registry/src/renderers.js:61-136 | a joined line list gives the same document byte for byte |
| `Clash.ClashRoundTrip` | go-registry/renderers.go:67-101 | a reader that knows the fixed lines of the document and looks every value up by its key gets back every proxy record, in order, and a group of exactly these names, if and only if no value holds a control character |
| `Clash.GroupNamesProxies` | go-registry/renderers.go:94-101 | each group entry is the name of the proxy at the same place |
| `Clash.ProxyNamesDistinct` | go-registry/renderers.go:67-93 | all proxy names are distinct exactly when no node repeats a protocol type and no two nodes announcing the same type have the same name: the two suffixes cannot collide |
| `Shadowrocket.GoRenderShadowrocketConfig` | go-registry/renderers.go:137-191 | the loops build the configuration of all entries and of a group naming them |
| `Shadowrocket.WorkerRenderShadowrocketConfig` | cloudflare-registry/src/renderers.js:138-179 | the same for the Worker, with its own white space trimmed |
| `Shadowrocket.ConfRoundTrip` | go-registry/renderers.go:137-191 | a reader that knows the fixed lines and the keys gets back, whatever names and values hold, exactly the printed fields of every line and the names of the group |
| `Shadowrocket.GroupNamesEntries` | go-registry/renderers.go:173-179 | each group entry is the name printed on the proxy line at the same place |
| `Shadowrocket.SafeValueRestored` | go-registry/util.go:72-77 | mapping `%2C` back to a comma restores a value exactly when it has no line break and no literal `%2C` |
| `Shadowrocket.FlattenMeaning` | go-registry/util.go:65-70 | a name keeps its length: a comma, a line feed and a carriage return become a space each, nothing else changes |
| `Unicode.TrimMeaning` | go-registry/util.go:69 | both trims take away exactly the white space at the two ends, the characters of Go's `unicode.IsSpace` or of JavaScript's `trim` |
| `Shadowrocket.SafeNameUnchanged` | go-registry/util.go:65-70 | in either language a name is printed as it is exactly when it has no comma, no line break and no white space at its ends |
| `Shadowrocket.NamesCollide` | go-registry/util.go:65-70 | names that differ only in a comma and a space get one and the same entry |
| `Groups.NamesDistinct` | go-registry/renderers.go:94-101 | for any way of showing a node's name: the shown proxy names are distinct exactly when no node repeats a protocol type and no two nodes announcing the same type are shown alike |
| `Nodes.EntryProxy` | go-registry/renderers.go:34-52 | a protocol entry of a known type is one proxy, named after its node with `-Trojan` or `-SS`, each value from its own field; any other is none |
| `Shadowrocket.EntryNamesDistinct` | go-registry/renderers.go:173-179 | on either side, all group entries are distinct exactly when no node repeats a protocol type and no two nodes announcing the same type have equal names once flattened and trimmed on the left |
| `Shadowrocket.ConfAgree` | cloudflare-registry/src/renderers.js:222-228 | the two configurations are the same to the byte exactly when every name is shown alike: its first character that is not white space to both is white space to neither |
| `SingBox.GoRenderSingBox` | go-registry/renderers.go:193-221 | the outbound tree: direct first, then one outbound per proxy with its name as the tag, address, secret and TLS switch, and the host as default server name |
| `SingBox.WorkerRenderSingBox` | cloudflare-registry/src/renderers.js:181-216 | the same tree, field by field |
| `Formats.OneProxyEach` | go-registry/store.go:40-59 | a valid node list yields one proxy per protocol entry: nothing is dropped |
| `Subscription.GoRenderSubscription` | go-registry/renderers.go:11-28 | the body of the format that the lower-case name stands for, or the error for an unknown one |
| `Subscription.WorkerRenderSubscription` | cloudflare-registry/src/renderers.js:1-34 | the same for the Worker; none also when `btoa` throws |
| `FormatNames.GoFormatNames` | go-registry/renderers.go:12-24 | which lower-case names ask for which format: each of the five exactly for its own names, links also for the empty one |
| `FormatNames.GoQueryFormatNames` | go-registry/server.go:95-98 | the same for a request, once white space is trimmed |
| `FormatNames.WorkerFormatNames` | cloudflare-registry/src/renderers.js:1-33 | the same for the Worker, untrimmed, with its default for the empty name |
| `Unicode.LowerOf` | go-registry/renderers.go:12 | what lowering does to a character: A to Z become a to z, the Kelvin sign a k, in Go alone U+0130 an i; every other stays as far as format names can tell |
| `FormatNames.FormatsRecognised` | cloudflare-registry/src/index.js:70-78 | for every parameter: the Worker knows the format names Go knows, except that it does not trim white space around them and does not take U+0130 for an i |
| `Subscription.SubscriptionsAgree` | cloudflare-registry/src/renderers.js:36-216 | in every format: the Worker answers exactly when it can encode the secrets, and its answer reads like Go's exactly when secrets are ASCII (links, base64) or names are shown alike (configuration); Clash, configuration and sing-box are then the same to the byte |
| `Subscription.FormatsAgree` | go-registry/renderers.go:11-237 | for every valid node list, each format read back gives the same endpoints (type, host, port, password, cipher, effective server name), one per protocol entry, exactly when the values meet that format's needs |
| `Formats.EndpointTells` | go-registry/renderers.go:36-52 | endpoints differ as soon as type, host, port, password, cipher or effective server name do |
| `Compaction.Compact` | go-registry/commands.go:167-175 | reading and overwriting one array, the loop leaves the kept elements in front in order and the rest untouched; the write index never passes the read index; found exactly when something matched |
| `Compaction.KeptAndDropped` | go-registry/commands.go:228-236 | kept and dropped elements together are the original multiset |
| `Compaction.RunTokenDelete` | go-registry/commands.go:162-181 | on success the file holds the loaded configuration with its empty settings filled in, each with its own default, and the order-preserving filter of its tokens; an unreadable file, an absent token and a failing save leave it as before |
| `Compaction.DefaultsSettle` | go-registry/config.go:52-60 | every empty setting gets its default, the public URL one built from the address in use, everything else stays; and loading what was saved after loading adds nothing more |
| `Compaction.TokenRevoked` | go-registry/commands.go:162-181 | deleting a token revokes it, with all its copies, and no other |
| `Compaction.RunNodeDelete` | go-registry/commands.go:219-241 | on success the data file that the configuration names holds the filtered list and stands for the map without the node; on any failure, an unreadable configuration included, it is as before |
| `Compaction.RebuildKept` | go-registry/commands.go:228-236 | the filtered list stands for the map without the node, even where the file lists it twice |
| `NginxScript.PatchNginxMainConfig` | install-node.sh:203-234 | what every stage does, for every text: where its search finds no match, the exact lines are added behind the first place that fits, and nowhere else; the first number of connections and every commented `multi_accept` are rewritten. Taking the added lines out again gives the text with these two rewrites. And the whole is what the five stages on lines give once the first match is tuned |
| `Matching.SearchDirective` | install-node.sh:206 | the anchored search for a directive succeeds exactly when some line begins with blanks, the word, and no character that continues it |
| `Matching.SearchUseEpoll` | install-node.sh:216 | and for `use epoll;` exactly when behind some line start stand blanks, `use`, white space, which may hold line breaks, and `epoll;` |
| `Matching.TunedMeaning` | install-node.sh:213 | the first match of the expression for the number of connections, and no other, is replaced |
| `NginxScript.InsertText` | install-node.sh:207-211 | a first replacement of a line ending is the insertion of lines after the first such line |
| `Tuning.Commute` | install-node.sh:213-214 | the two in-line rewrites do not interfere: either order gives the same line |
| `Tuning.UncommentTwice` | install-node.sh:214 | uncommenting is settled after one pass exactly when no comment is commented out once more |
| `Nginx.PatchTwice` | install-node.sh:203-234 | the five stages applied twice equal once, exactly when neither exception applies |
| `NginxScript.ScriptIdempotent` | install-node.sh:203-234 | running the script on its own output changes nothing, for exactly the texts without `# # multi_accept on;` whose file limit does not vanish |
| `NginxScript.DoubleCommentTakesTwoRuns` | install-node.sh:214 | a text that shows the first exception |
| `NginxScript.LimitCanVanish` | install-node.sh:206-214 | a text that shows the second exception |

## Left out

- Worker.HandleApiNode: the select and the delete run with no other statement in between; with other statements in between
  it is `Interleaving.StatementServes`.
- Simulation.RegistriesAgree: the same tokens are enabled on both sides, and both see the same query parameters.
- JSON encoding and decoding: a data file holds a node list, or is torn, or is absent; the Worker's `protocols_json`
  column holds the protocol list; the sing-box subscription is modelled up to its outbound tree, without the fixed log,
  dns and route parts.
- HTTP routing, body size limits, logging and audit rows. What each server decodes from a header, a body or a path is an
  input of its own.
- Token hashing, random tokens, `last_used_at` and the endpoints under `/admin`: the Worker's tokens are the sets of
  enabled ones and the admin secret.
- The command line editing the data file while a server runs: the code takes no lock across processes, so the server is
  the only writer of its file.
- Power loss: there is no fsync in the code; crashes are process crashes, and a rename is atomic.
- Payloads of the wrong JSON type, which the two languages treat differently.
- Byte strings that are not UTF-8 and JavaScript strings with a lone surrogate have no counterpart in the other language;
  and where there is no `btoa`, the Worker's code falls back to a UTF-8 encoder, which is not modelled.
- YAML beyond the printed lines: the parser reads the line structure the printers write, with double-quoted scalars on
  one line by section 7.3.1 of YAML 1.2.
- The sorting algorithm: `sort.Slice` and `ORDER BY` are an insertion sort on distinct keys, for which every correct sort
  gives the same list.
- In the nginx expressions the character classes are those of ASCII text, without carriage returns, which reading a file
  as text removes; reading and writing the file, its backup and the dry run are not modelled.
- The rest of the installer, and every script that only talks to shell, network or prompts.

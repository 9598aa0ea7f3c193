# labeller: the label cache, the fact record and the add/remove bridge

labeller is a Gmail triage tool. For each message matching a query it builds a fact record (sender, recipients, subject, existing labels) and runs a user rule script against it. The script attaches or removes labels through two host functions, `add` and `remove`. This project models, in Dafny, the three parts of the program with real logic:

- **The label cache** (`labels.go`, module `Labels`). Two package-level maps, `labels2ID` and `id2Labels`, are fields of the class `LabelCache`.
  - `LoadLabels` resets both maps, lists the labels, and stores each one both ways.
  - `getLabelID` resolves a name to an ID. It reloads whenever `labels2ID` is empty, and creates the label when the name has no non-empty ID.
  - `getLabelById` resolves an ID to a name and never creates anything.
  - The pure functions `Stored`, `Loaded`, `Prepared`, `ResolveName` and `ResolveId` give each operation's effect on the maps, its result and the requests it sends. The methods are proved to follow them; the lemmas state what the cache promises.
- **The fact record** (`main.go`, modules `Address` and `Facts`).
  - `parseAddress` splits a bare address on `@` (`Split` models `strings.Split`).
  - The label loop keeps the names of the IDs that resolve.
  - The header loop takes From (the last one wins), merges To and Cc split on `,`, and keeps the raw Subject.
- **The host functions** (`main.go`, module `Host`). `add` and `remove` check their argument count and resolve the name through the cache. A call with one argument whose lookup succeeds then issues exactly one modify request for the global `msgID`; a call with another argument count, or whose lookup fails, sends none. A script run is modelled as any sequence of such calls. `Process` is one turn of the message loop: bind `msgID`, build the record, run the script.

The Gmail service (module `Gmail`) is an abstract provider. Its answer to each list or create call is a parameter of the operation that makes the call. The `Service` object records every request in order (`ListLabels`, `CreateLabel`, `ModifyMessage`). The lemmas can therefore state which requests an operation sends. Go's `("", err)` return is modelled as `Err(err)`.

`net/mail.ParseAddress` implements the mailbox syntax of section 3.4 of RFC 5322. It is the parameter `parse: string -> Option<string>`, an arbitrary total function that answers the bare address or `None`.

## Behaviour of the code worth knowing

- **Malformed addresses crash.** `parseAddress` ignores the error from `net/mail.ParseAddress` and dereferences its result (main.go:89-90). It then indexes `parts[1]` without checking that the address holds an `@` (main.go:91). A header whose address does not parse is therefore not skipped; the program stops. `ParseAddress` requires a successful parse with an `@`. The header loop requires this of every From value and every comma-separated To/Cc piece (`AllParse`). A recipient list like `"Smith, John" <j@x.com>` is split inside the quotes (main.go:415), and the code crashes on the piece `"Smith`. The model excludes such input rather than representing the crash.
- **Function name mismatch.** main.go:386 calls `getLabelByID`, but labels.go:70 defines `getLabelById`. Go names are case-sensitive, so the two files as given do not build together. Both names are treated as one operation, `LabelCache.GetLabelById`.
- **The cache reloads whenever `labels2ID` is empty** (labels.go:43, labels.go:74). That includes after a failed listing and after a successful listing with no labels. In that state every lookup sends another listing request (`LabelLoopSettles`).
- **Cached empty IDs.** A name whose cached ID is `""` counts as a miss (labels.go:52) and is created again. `EmptyIdIsCreatedAgain` shows this.
- **Failed creates.** A failed create leaves the maps as the same call's reload left them. That can differ from the maps before the call (`ResolveNameFailureKeepsMaps`).
- **Modify requests carry one-element lists.** `add` sends `AddLabelIds: [id]` and `remove` sends `RemoveLabelIds: [id]` (main.go:138, main.go:170). The model does the same (`Request`).

## Model

| member | source | states |
|---|---|---|
| `Gmail.Service.List` | labels.go:23 | the list call is logged once and its answer returned unchanged |
| `Gmail.Service.Create` | labels.go:58 | the create call for that name is logged once and its answer returned unchanged |
| `Gmail.Service.Modify` | main.go:141 | one modify request with exactly these IDs is appended to the log |
| `Labels.LabelCache.constructor` | labels.go:13-14 | the maps start empty, which is what the lazy-load test checks |
| `Labels.LabelCache.LoadLabels` | labels.go:16-35 | both maps are reset, one list request is sent, and the maps equal the listing stored in order; a failed listing returns its error and leaves both maps empty |
| `Labels.LabelCache.GetLabelID` | labels.go:38-67 | new maps, result and requests are those of `ResolveName` on the old maps |
| `Labels.LabelCache.GetLabelById` | labels.go:70-88 | new maps, result and requests are those of `ResolveId` on the old maps |
| `Labels.StoredKeys` | labels.go:29-32 | after a load, the keys of `labels2ID` are exactly the listed names and the keys of `id2Labels` exactly the listed IDs, for any listing |
| `Labels.StoredEntries` | labels.go:29-32 | with distinct names and distinct IDs (an empty ID allowed), every listed name maps to its ID and every listed ID to its name |
| `Labels.StoredMirror` | labels.go:29-32 | such a listing, empty IDs included, loads into mirror-image maps |
| `Labels.StoredConsistent` | labels.go:29-32 | a listing with distinct names and distinct non-empty IDs loads into mirror-image maps with no empty ID |
| `Labels.ResolveNameHit` | labels.go:51-54 | a name cached with a non-empty ID returns that ID, sends no request and changes nothing |
| `Labels.ResolveNameMiss` | labels.go:57-66 | a miss sends exactly one create; on success it returns the new ID and stores name→id and id→name only; on failure it returns the error and stores nothing |
| `Labels.LookupsReload` | labels.go:43-48 | both lookups (also labels.go:74-79) list first when `labels2ID` is empty; a failed listing gives its error and empty maps |
| `Labels.ResolveNameFailureKeepsMaps` | labels.go:44-61 | on any maps, a failed name lookup stores nothing beyond its own reload; a loaded cache, whatever its shape, is unchanged; an empty cache whose listing failed is unchanged, and so are mirror maps whose listing failed |
| `Labels.ResolveNameKeepsConsistent` | labels.go:57-66 | mirror consistency survives a name lookup when listings are well-formed and created IDs are new and non-empty |
| `Labels.ResolveNameIdempotent` | labels.go:51-66 | after a lookup that returned a non-empty ID, a second lookup returns the same ID, changes nothing and sends nothing, so at most one create is sent |
| `Labels.EmptyIdIsCreatedAgain` | labels.go:51-66 | if create answers the empty ID, the next lookup of that name creates it again |
| `Labels.ResolveIdLoaded` | labels.go:82-87 | on a loaded cache an ID lookup changes nothing and sends nothing; it succeeds exactly when the ID has a non-empty name and returns that name; otherwise it fails with an unknown-ID error |
| `Labels.ResolveIdKeepsConsistent` | labels.go:74-87 | an ID lookup keeps the cache consistent when the listing it may reload has distinct names and distinct non-empty IDs |
| `Labels.ResolveIdSettles` | labels.go:70-88 | an ID lookup sends only list requests and leaves settled maps that a further lookup keeps; its result is the non-empty name in those maps |
| `Address.IndexOf` | main.go:90 | the position of the first occurrence of the separator |
| `Address.Split` | main.go:90 | at least one piece; two or more exactly when the separator occurs; no piece contains it |
| `Address.SplitJoin` | main.go:90 | joining the pieces back with the separator gives the original text |
| `Address.ParseAddress` | main.go:77-92 | the first result is the parser's bare address; the second is the text before its first `@`; the third runs from there to the next `@` or the end |
| `Address.ParseAddressRoundTrip` | main.go:89-91 | with exactly one `@`, local part + `@` + domain is the full address |
| `Facts.AddRecipients` | main.go:415-423 | each piece adds one entry, in order, to each of the three `To` columns; existing entries and all other fields are kept |
| `Facts.ApplyHeader` | main.go:398-431 | labels are never touched; a header named anything but From, To, Cc or Subject changes nothing |
| `Facts.RecipientColumns` | main.go:412-423 | `To`, `ToPart` and `ToDomain` all have one entry per recipient piece of the To/Cc headers, in header order, and entry k is the parse of piece k |
| `Facts.FromFieldsAreSenderFields` | main.go:398-403 | the From fields after the header loop are those of `SenderFields`, the parse of the last sender header or empty |
| `Facts.NoSenderLeavesFromEmpty` | main.go:401-403 | without a header named exactly `From` whose value holds `@`, the From fields stay empty |
| `Facts.SenderIsLastFrom` | main.go:401-403 | the From fields come from the last header named exactly `From` whose value holds `@` |
| `Facts.SubjectIsLast` | main.go:428-430 | `Subject` is the raw value of the last header named exactly `Subject`, or empty |
| `Facts.CcCountsAsTo` | main.go:412-413 | renaming a Cc header to To leaves the record unchanged |
| `Facts.LabelsUntouched` | main.go:381-431 | the header loop over a record that already has labels gives the blank-record result with those labels |
| `Facts.PopulateHeaders` | main.go:398-431 | the header loop, with its inner recipient loop, computes the header fold `ReadHeaders` |
| `Facts.AppendRecipients` | main.go:415-423 | the inner recipient loop computes `AddRecipients`: one entry per piece, in order, in each of the three `To` columns |
| `Facts.KnownNames` | main.go:384-389 | the label names are exactly the non-empty names of the message's IDs, never more than the IDs; when every ID resolves, they are those names one for one, in order |
| `Facts.KnownConcat` | main.go:384-389 | the names for a concatenation of ID lists are the names for each part, in order |
| `Facts.KnownSingle` | main.go:386-389 | one ID contributes its name when it has a non-empty one, and nothing otherwise; with `KnownConcat` this fixes order and repeats |
| `Facts.LabelLoopSettles` | main.go:384-389 | the label loop keeps the names the settled maps know, in ID order; the cache settles at the first ID; it sends only listings: none on a loaded cache, one when that listing fills `labels2ID`, one per ID while it stays empty |
| `Facts.LabelLoopKeepsConsistent` | main.go:384-389 | the label loop keeps the cache consistent when the listing it may reload is well-formed |
| `Facts.PopulateLabels` | main.go:384-395 | names, cache and new requests are those of `LabelLoop` on the old cache, and the names are those the settled cache knows for the IDs |
| `Host.HostCallRequests` | main.go:116-179 | wrong argument count: no lookup, no request; failed lookup: no modify request; success: exactly one modify request, last, for `msgID`, adding or removing just that ID; never more than one modify |
| `Host.HostCallKeepsConsistent` | main.go:131-135 | an add or remove keeps the cache consistent when the provider answers honestly |
| `Host.ScriptTargetsCurrentMessage` | main.go:138-173 | every modify request of the first n host calls of a run is for the current message, and there are at most n of them |
| `Host.ScriptKeepsConsistent` | main.go:439-442 | the cache stays consistent after each host call of a run when the provider answers honestly throughout |
| `Host.MessageTurnKeepsConsistent` | main.go:384-442 | one message turn, the label loop and then the script run, keeps the cache consistent under a well-formed listing and honest answers to the script's calls |
| `Host.Labeller.constructor` | main.go:51 | the message ID starts empty and the cache and service are the given ones |
| `Host.Labeller.Add` | main.go:116-147 | new maps and requests are those of `HostCall` for an add on the old maps and the current `msgID` |
| `Host.Labeller.Remove` | main.go:148-179 | new maps and requests are those of `HostCall` for a remove |
| `Host.Labeller.Invoke` | main.go:116-179 | one host call of the script: new maps and requests are those of `HostCall` for its operation |
| `Host.Labeller.RunScript` | main.go:439-442 | the host calls run in order; maps and requests are those of `RunEffect` |
| `Host.Labeller.Process` | main.go:356-442 | `msgID` is bound first; a failed fetch changes nothing; otherwise the record is the header fold plus the known label names, and the cache and new requests are those of the label loop followed by the script run, every modify request for this message; a consistent cache stays consistent under a well-formed listing and honest answers |

## Left out

- OAuth credentials, the client bootstrap and building the Gmail service (main.go:204-229, `getClient`): I/O and foreign libraries.
- The administrative flags `-list-labels`, `-delete-labels` and `-update-labels` (main.go:231-334): one-shot remote calls, Go's regexp engine, a floating-point progress line.
- Reading and preparing the script, and the rule engine (main.go:97-110, main.go:336-341, main.go:439-442): an external interpreter. Script execution is modelled as any sequence of `add`/`remove` calls.
- The script arguments' `Inspect()` stringification (main.go:124, main.go:156): arguments are given as already-inspected strings.
- The internals of `net/mail.ParseAddress`: the parser is an arbitrary function parameter.
- The `Messages.List`, `Messages.Get` and HTTP transport calls: a fetch is the parameter `fetched` of `Process`, and the message query is not modelled. The answer of `Messages.Modify` is not modelled either, because the code only prints it.
- Logging and `verbose` output throughout.
- Labels.ResolveNameKeepsConsistent: consistency is proved only when the provider lists distinct names and distinct non-empty IDs and creates fresh non-empty IDs. Gmail's behaviour is assumed, not modelled.
- Labels.ResolveIdKeepsConsistent, Facts.LabelLoopKeepsConsistent, Host.MessageTurnKeepsConsistent and the consistency clause of Host.Labeller.Process rest on the same assumption about the provider's answers.
- Facts.PopulateLabels: every lookup in one message's label loop receives the same listing answer. A provider that answered the repeated reloads differently is not modelled.
- Address.ParseAddress: requires the parse to succeed and the address to contain `@`. The Go code crashes otherwise, and the model does not represent the crash.

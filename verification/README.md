# Verified model of the ICANN RDAP client and server

This project models the parts of the ICANN RDAP tools (client, command line and server) whose
behaviour spans many steps, and proves what those parts promise. `dafny verify dfyconfig.toml`
checks all of it.

| Component | Modules |
| --- | --- |
| Contacts as jCards (RFC 7095, RFC 6350) | `ContactTypes`, `JcardReader`, `JcardReading`, `JcardWriter`, `JcardRoundTrip` |
| JSONPath to JSON Pointer (RFC 6901), redaction (RFC 9537) | `JsonPaths`, `PathRewriting`, `PathTexts`, `Redaction`, `RedactionRuns` |
| Bootstrap registries in the client (RFC 9224) | `IanaRegistry`, `PrefixIndex`, `ClientLookups`, `BootstrapStores`, `SharedStore`, `HttpCache` |
| Bootstrap in the server | `ServerBootstrap`, `BootstrapPasses`, `BootstrapOutcomes`, `RedirectWalk`, `BootstrapAgreement`, `FamilyAgreement` |
| Loading and storage | `Responses`, `SelfLinks`, `Storage`, `LoadHistory`, `LoadedRecords`, `ReloadPolling` |
| Retries after HTTP 429 (RFC 6585, RFC 9110) | `RetryLoop` |
| Conformance checks (RFC 9083) | `CheckTree`, `ConformanceChecks`, `ConformanceSites`, `ConformanceCounts` |
| Shared | `Wrappers`, `Sequences`, `Text`, `JsonValue` |

Code that changes things step by step is a method with loops, or a class with the same fields, and
its contract ties the new state to a specification function. What the program promises is then
proved about those functions, for all inputs and all runs.

What libraries do is a parameter: Unicode case conversion, printing and parsing JSON text, the
two JSONPath engines, the date parsers, percent-encoding, the parsing of networks, the tables of
registered names. A theorem that needs something of a library says so in its `requires`: case
conversion to lower is idempotent (`LowerIdempotent`), printed JSON can be parsed (`Sound`).

Times are integers, directories are maps from file names to contents, strings are sequences of
characters whose UTF-8 length is counted where the program counts bytes. Machine integers are
bounded where the program relies on it (`u16`, `u64` and `i64` in `RetryLoop`, `u64` preferences,
`i64` ages).

## What the proofs found

Where a property turned out false of the code, a theorem says exactly when it holds.

* The JSONPath rewriting is wrong for keys with a dot, a bracket, a slash or a tilde. A selected string
  under a dotted key is then left unmarked (`RedactionRuns.DottedStringUnmarked`), and a number under
  one can be overwritten with a string from elsewhere (`RedactionRuns.DottedKeyBreaksShape`).
* One engine finds the places to redact and another, given only the text of each path, replaces. A key
  like `a'].['b` imitates the path of another place; the program then treats the two alike, and whatever
  the second engine makes of the text, some run goes wrong (`RedactionRuns.ImitatedPathIsNeverRight`).
* For a given second engine, all runs on documents of one shape are right exactly if the edit for each
  place with a string reaches that place alone, and the edit for every other place reaches nothing
  (`RedactionRuns.RedactionIsRightExactly`). Some engine makes all runs right exactly if each string has
  a pointer that reaches a string and a path whose text no other place has
  (`RedactionRuns.SomeEngineIsRightExactly`). On keys that the rewriting does not damage, all runs are
  right exactly if the engine reads the paths of strings back, which for a key with an apostrophe is up
  to it.
* A redaction whose method does not apply is applied all the same when it has no path. It leaves a
  document as it is exactly if it has a path, or the edits for what is found for the empty path in this
  document reach nothing, as for the root.
* A telephone without contexts and features comes back from a jCard with one empty feature, given that
  the empty string is its own lower case (`JcardRoundTrip.BarePhoneGainsFeature`). The merging of
  contexts and features is undone exactly under the conditions of `PhoneExact`.
* The client takes any string suffix for a match, where section 4 of RFC 9224 speaks of labels; the
  server walks label by label. They give one URL exactly if some entry stands on a label boundary of
  the name and the URL of the longest such entry is the client's base URL with its trailing slashes
  replaced by one. So they can agree although the client's entry stands off every boundary; when it
  stands on one, they agree exactly if the base URL does not end with two slashes.
* For numbers, networks and object tags that several services list, the client takes the first service,
  the last or the first, while in the server the file that is loaded last decides. They give one
  address in every order of the directory exactly if all services that list the number, the longest
  listed network or the tag have the client's URL, with one slash at its end.
* The client looks at the first tag of each service only, the server at all of them: a second tag is
  known to the server and not to the client (`FamilyAgreement.SecondTagUnknown`). They know the same
  tags exactly if each listed tag is the first one of a service that the client gets to.
* An update, unlike a reload, keeps the redirects of entries that have left the registry: what it leaves
  is the registry exactly if the registry lists every key of the kind that the store held before.
* All orders of one directory load the same records exactly if all files that write a key agree on its
  value.
* A reload touched no later than an update is lost when both are seen in the same pass.
* A malformed service stops the making of templates after the new cache is written. A fetched family is
  complete exactly if none of its services is malformed; otherwise it holds the templates before the
  first malformed one, no trigger is touched and the loop ends. Passes begun later, as after a restart,
  take the cache for fresh and leave the part as it is until the deadline of the cache
  (`BootstrapPasses.PartialFamilyStays`).
* A `Retry-After` date in the past makes the client wait as long as it is allowed to, not the least.
* With 65535 retries allowed the 16-bit count of tries can overflow; with fewer it cannot.
* Under an entity as the root, the checks cannot tell the root from nested entities: each of them that
  lacks `rdapConformance` is reported, and none that carries it.
* The checks pass over the nameservers and the network of a domain, and the autnums and the networks of
  an entity, with all that is inside them: a misplaced `rdapConformance` there is never reported
  (`ConformanceCounts.NameserverGoesUnreported`). The reports are right exactly if neither this nor the
  case before it occurs.
* Changing a self link twice forgets the first change unless the first id holds the segment.

## Model

| member | source | states |
|---|---|---|
| JcardReader.ReadPostalAddress | icann-rdap-common/src/contact/from_vcard.rs:315-427 | the mutable-local reading of one `adr` property gives exactly the address that the specification `PostalAddressOf` reads from it, whichever components are missing or of another type |
| JcardReader.ReadStreet | icann-rdap-common/src/contact/from_vcard.rs:345-371 | the street parts pushed are the filled ones of components 0 to 2, the third being a string or an array of strings |
| JcardReader.ReadNameOrCode | icann-rdap-common/src/contact/from_vcard.rs:379-407 | a region or country is a code exactly if it is two bytes long and its own upper case, and else a name |
| JcardReader.ReadNameParts | icann-rdap-common/src/contact/from_vcard.rs:433-477 | an iterator advanced once per part reads the five parts in the order surname, given, middle, prefix, suffix, and skips components that are neither string nor array |
| JcardReading.AddressIsRead | icann-rdap-common/src/contact/from_vcard.rs:315-427 | the address read from any property `adr`: the non-empty strings of box and suite and then of the street, one string or an array of them, in order; city and postal code; region and country as a code or a name; preference, contexts and label from its parameters |
| JcardReading.StreetIsRead | icann-rdap-common/src/contact/from_vcard.rs:345-371 | the lines of the street from any list of components, stated on the components |
| JcardReading.NamePartsAreRead | icann-rdap-common/src/contact/from_vcard.rs:433-503 | the five parts come from the strings and arrays among the components, in their order, each a non-empty string or the non-empty strings of an array |
| JcardReading.ContextsAndFeaturesAreRead | icann-rdap-common/src/contact/from_vcard.rs:187-243 | contexts and features are the words of the parameter `type`, one or an array, that in lower case are or are not among the six contexts |
| JcardReading.CardIsRead | icann-rdap-common/src/contact/from_vcard.rs:53-81 | any array gives a contact only if it is a jCard, and then each field says, in order, what the properties of its name say, whatever the case of names; the first property decides for name and kind; and an array that is a jCard gives none only if it says nothing |
| JcardReading.TwoBytesExactly | icann-rdap-common/src/contact/from_vcard.rs:379-407 | the texts of two bytes are the two-letter ASCII ones and the single characters that take two bytes |
| JcardWriter.ToVcard | icann-rdap-common/src/contact/to_vcard.rs:24-187 | properties pushed one at a time make the card in which all properties of one name stand together, in the order of the program |
| JcardWriter.BuildPhone | icann-rdap-common/src/contact/to_vcard.rs:102-118 | contexts and features go into one `type` list, contexts first |
| JcardWriter.BuildAddress | icann-rdap-common/src/contact/to_vcard.rs:120-170 | preference, contexts and label become parameters, and the seven components are those of the address, region and country taking the name before the code |
| JcardWriter.PushLines | icann-rdap-common/src/contact/to_vcard.rs:135-168 | the seven components in order, exactly three of them street lines |
| JcardWriter.WrittenPropertiesAreTyped | icann-rdap-common/src/contact/to_vcard.rs:24-187 | every property written has four elements and the type of value that belongs to its name: `language-tag` for languages, `uri` for addresses of resources, and else `text`; the version comes first |
| JcardRoundTrip.FindSection | icann-rdap-common/src/contact/from_vcard.rs:105-125 | looking a property name up in a whole written card finds the section of that name and nothing else |
| JcardRoundTrip.DecodeEncode | icann-rdap-common/src/contact/to_vcard.rs:24-187 | for every contact, reading what was written gives the JSON-free normal form `Normalize`, or nothing if that is empty; no precondition but that full addresses are JSON text, without which the program stops |
| JcardRoundTrip.NormalizeIdempotent | icann-rdap-common/src/contact/to_vcard.rs:102-171 | the normal form of a normal form is itself, for every contact without a full address, even an ill-formed one |
| JcardRoundTrip.RoundTripRetracts | icann-rdap-common/src/contact/from_vcard.rs:53-78 | whatever comes back from one round trip comes back unchanged from the next |
| JcardRoundTrip.NormalFormsAreWellFormed | icann-rdap-common/src/contact/mod.rs:104-346 | a contact is its own normal form if and only if it is well formed, field by field |
| JcardRoundTrip.RoundTripExactly | icann-rdap-common/src/contact/to_vcard.rs:232-303 | the contacts that survive a round trip are exactly the well-formed ones that are not empty: both directions, where the repository has one example |
| JcardRoundTrip.PhoneExact | icann-rdap-common/src/contact/from_vcard.rs:292-308 | a telephone comes back unchanged if and only if it has contexts or features, those it has are non-empty lists of lower-case words, and contexts are among the six context words while features are not |
| JcardRoundTrip.BarePhoneGainsFeature | icann-rdap-common/src/contact/to_vcard.rs:102-118 | a telephone without contexts and features is read back with no contexts and one empty feature, if the empty string is its own lower case |
| JcardRoundTrip.AddressExact | icann-rdap-common/src/contact/from_vcard.rs:315-427 | an address comes back unchanged if and only if it has at most one of code and name in each slot, each where the two-letter test puts it, at most three non-empty street lines, and no label that parses to something else |
| Text.DecimalRoundTrip | icann-rdap-common/src/contact/from_vcard.rs:161-171 | printing and parsing a u64 preference gives it back |
| JsonPaths.EscapeRoundTrip | icann-rdap-client/src/md/redacted.rs:148-160 | unescaping an escaped reference token of RFC 6901 gives the token back |
| JsonPaths.PointerResolves | icann-rdap-client/src/md/redacted.rs:148-160 | the JSON Pointer made of the steps to a node reaches that node |
| JsonPaths.IndexExactly | icann-rdap-client/src/md/redacted.rs:148-160 | a reference token is an array index exactly if it is the decimal numeral of that index, so no sign and no leading zero |
| JsonPaths.PointerReachesNode | icann-rdap-client/src/md/redacted.rs:148-160 | conversely, whatever a pointer reaches is a node of the document under the names and numbers its tokens spell, one step per token |
| PathRewriting.CleanRewriting | icann-rdap-client/src/md/redacted.rs:199-209 | on clean keys the seven replacements give the pointer of the same steps if and only if no stretch of empty keys loses a slash |
| PathRewriting.RightOnlyIfClean | icann-rdap-client/src/md/redacted.rs:199-209 | if the replacements give the right pointer then no key holds a dot, a bracket, a slash or a tilde; shown by counting characters, for all paths |
| PathRewriting.RewritingIsRightExactly | icann-rdap-client/src/md/redacted.rs:199-209 | the rewriting is right if and only if the keys are clean and the slashes survive; for all lists of steps in all three notations |
| PathRewriting.NonEmptyKeysSurvive | icann-rdap-client/src/md/redacted.rs:199-209 | without empty keys no slash is lost |
| PathRewriting.ReportedPathsRewriteExactly | icann-rdap-client/src/md/redacted.rs:148-160 | for paths as the engine reports them clean keys are necessary and sufficient, empty keys included |
| PathRewriting.RewrittenPathReaches | icann-rdap-client/src/md/redacted.rs:148-160 | the rewritten path of a node reaches that node |
| PathTexts.TextDeterminesSteps | icann-rdap-client/src/md/redacted.rs:145-163 | two paths whose keys hold no apostrophe followed by a closing bracket have one text only if they are the same path |
| PathTexts.ApostropheFreeTextDetermines | icann-rdap-client/src/md/redacted.rs:145-163 | so the text determines a path whose keys hold no apostrophe |
| PathTexts.ImitatedText | icann-rdap-client/src/md/redacted.rs:145-163 | a key can imitate: two different paths with one text |
| Redaction.ConvertRedactions | icann-rdap-client/src/md/redacted.rs:114-196 | editing the document in place, item by item and path by path, gives the fold `Redacted` over all items |
| Redaction.ConvertRedaction | icann-rdap-client/src/md/redacted.rs:119-192 | one item: skipped for another path language, or for another method unless its path is empty, and else applied for the texts of all places found |
| RedactionRuns.AppliedItem | icann-rdap-client/src/md/redacted.rs:119-151 | an item whose `pathLang` is absent, no string, or JSONPath in letters of either case, and whose method is `emptyValue` or `partialValue` or which has no path, is applied at all places found for its path |
| RedactionRuns.SkippedItem | icann-rdap-client/src/md/redacted.rs:123-134 | an item with any other path language, or with a path and any other method, changes nothing |
| RedactionRuns.FoundStringsAreMarked | icann-rdap-client/src/md/redacted.rs:119-192 | so each string found is marked as often as it is found, where edits are exact |
| RedactionRuns.HandleIsMarked | icann-rdap-client/src/md/redacted.rs:119-192 | the response of one member whose value, found and reached, is marked with stars, or as redacted if empty |
| Redaction.EditPaths | icann-rdap-client/src/md/redacted.rs:145-185 | the paths of one item are edited one after the other, by their text alone, each in the document as the earlier edits left it |
| Redaction.EditReplacesReached | icann-rdap-client/src/md/redacted.rs:145-185 | an edit replaces the places it reaches and does nothing else: none if the pointer reaches no string, and else those that the text of the path selects in the engine that replaces |
| Redaction.EachResolves | icann-rdap-client/src/md/redacted.rs:161-181 | replacing at several places marks a string as often as its place occurs among them, unless it goes with a node above it |
| Redaction.EditKeepsShapeExactly | icann-rdap-client/src/md/redacted.rs:145-185 | one edit keeps keys, array lengths and leaves other than strings if and only if it reaches only strings |
| Redaction.EditMarksExactly | icann-rdap-client/src/md/redacted.rs:145-185 | one edit marks a selected string if and only if it reaches the string once and no node above it; for any keys and any engine |
| Redaction.EditSparesExactly | icann-rdap-client/src/md/redacted.rs:145-185 | one edit leaves a string as it was if and only if it reaches neither the string nor a node above it |
| Redaction.EditMarks | icann-rdap-client/src/md/redacted.rs:145-185 | one edit that reaches just the selected place, or none if that holds no string, marks the string there, if any, and leaves every other string as it was |
| Redaction.ShapeAt | icann-rdap-client/src/md/redacted.rs:114-196 | documents of one shape have nodes in the same places, of the same kind |
| RedactionRuns.ShapeIsKeptExactly | icann-rdap-client/src/md/redacted.rs:114-196 | for each shape and engine: all runs, whatever the items and what is found, keep keys, array lengths and leaves other than strings, if and only if the edit for each place of such a document reaches only strings |
| RedactionRuns.RedactionIsRightExactly | icann-rdap-client/src/md/redacted.rs:114-196 | for each shape and engine: all runs keep the shape, mark each string as often as it is selected and leave the others alone, if and only if the edit for each place that holds a string reaches that place alone and the edit for every other place reaches nothing |
| RedactionRuns.RightForDocumentExactly | icann-rdap-client/src/md/redacted.rs:114-196 | the same for one document, if the engine does not look at strings |
| RedactionRuns.SomeEngineIsRightExactly | icann-rdap-client/src/md/redacted.rs:145-181 | some engine makes all runs right if and only if each string has a pointer that reaches a string and a path whose text no other place of the document has |
| RedactionRuns.CleanDocumentIsRightExactly | icann-rdap-client/src/md/redacted.rs:114-209 | on a document none of whose keys the rewriting damages, all runs are right if and only if the engine reads the path of each string as the place of that string |
| RedactionRuns.CleanDocumentIsToldApart | icann-rdap-client/src/md/redacted.rs:114-209 | so for such a document there is an engine that makes all runs right, apostrophes included |
| RedactionRuns.ImitatedPathIsNeverRight | icann-rdap-client/src/md/redacted.rs:145-181 | the document on which two places are edited alike, and on which no engine makes all runs right |
| RedactionRuns.RunKeepsShape | icann-rdap-client/src/md/redacted.rs:114-196 | a run all of whose selectable places are safe keeps the shape of the document |
| RedactionRuns.RunMarks | icann-rdap-client/src/md/redacted.rs:114-196 | in a run whose selectable places are edited exactly, a string selected k times is marked k times, and one never selected keeps its text |
| RedactionRuns.MarksAreStars | icann-rdap-client/src/md/redacted.rs:164-176 | k marks put k stars on each side of a non-empty string |
| RedactionRuns.OtherMethodsChangeNothingExactly | icann-rdap-client/src/md/redacted.rs:131-134 | for each document, an item whose method does not apply changes nothing if and only if its path is not empty or the edits for what is found for the empty path in the document reach nothing |
| RedactionRuns.RejectedOrRootIsHarmless | icann-rdap-client/src/md/redacted.rs:131-151 | an engine that rejects the empty path, or answers it with the root, meets that condition |
| RedactionRuns.EditsChangeNothingExactly | icann-rdap-client/src/md/redacted.rs:145-185 | a list of edits changes nothing if and only if each alone reaches nothing: no edit is undone by a later one |
| RedactionRuns.DottedStringUnmarked | icann-rdap-client/src/md/redacted.rs:145-209 | the document whose selected string under a dotted key is left unmarked, by any engine |
| RedactionRuns.DottedKeyBreaksShape | icann-rdap-client/src/md/redacted.rs:145-209 | the document whose number under a dotted key is overwritten by a string from elsewhere, by any engine that reads its path rightly |
| IanaRegistry.GetDnsBootstrapUrls | icann-rdap-common/src/iana.rs:75-95 | the nested loops compute the longest match over all entries in document order, no-URLs if nothing matches, empty-service if and only if some service has no arrays |
| IanaRegistry.ScanService | icann-rdap-common/src/iana.rs:79-90 | the inner loop extends the match kept so far over the names of one service |
| IanaRegistry.LongestMatchIsFirstLongest | icann-rdap-common/src/iana.rs:75-95 | the match kept is the first, in document order, of the longest entries that are suffixes; none is kept if and only if none is |
| IanaRegistry.PreferredExactly | icann-rdap-common/src/iana.rs:197-209 | the first URL that begins with `https://` is preferred wherever it stands, and without one the first of all; there is none only for no URLs |
| IanaRegistry.DnsAnswerExactly | icann-rdap-common/src/iana.rs:75-95 | the answer to a name: empty-service if some service has no arrays, whatever else matches; no-URLs if no entry is a suffix; else the URLs of the first of the longest |
| PrefixIndex.GetIpBootstrapUrls | icann-rdap-common/src/iana.rs:128-178 | inserting every network of every service and asking for the longest match answers like the flat scan, errors included |
| PrefixIndex.LookupAfterInsert | icann-rdap-common/src/iana.rs:128-178 | what one insertion does to every later lookup |
| PrefixIndex.IndexRefinesScan | icann-rdap-common/src/iana.rs:128-178 | the index answers like the flat scan for all routes, queries and address widths |
| PrefixIndex.ScanKeepsLastLongest | icann-rdap-common/src/iana.rs:128-178 | the flat scan keeps the last of the longest networks containing the query, if any does |
| PrefixIndex.IpAnswerExactly | icann-rdap-common/src/iana.rs:128-178 | the answer to a network: the error of the first bad service before any other, then that of a bad query, and then the URLs of the last of the longest networks containing it, or no-URLs |
| ClientLookups.GetAsnBootstrapUrls | icann-rdap-common/src/iana.rs:97-126 | the nested loops return what the first range that holds the number or cannot be read decides, with the errors of the program |
| ClientLookups.FirstCoveringDecides | icann-rdap-common/src/iana.rs:97-126 | in a registry that can be read, the answer is that of the first service covering the number, and none if and only if none covers it |
| ClientLookups.FirstServiceDecides | icann-rdap-common/src/iana.rs:97-126 | for every registry: the first service without arrays, or with a range that cannot be read or holds the number, gives its error or its URLs, and without one there are none |
| ClientLookups.UnreadableRange | icann-rdap-common/src/iana.rs:107-118 | which error an unreadable range gives: the start is read before the end |
| ClientLookups.PrefixedNumberIsFound | icann-rdap-common/src/iana.rs:97-101 | letters `A` and `S` of either case before a number do not matter |
| ClientLookups.OtherPrefixIsInvalid | icann-rdap-common/src/iana.rs:97-101 | any other character in front, but a plus sign or a digit, makes the number invalid, in every registry |
| ClientLookups.RangeCoversExactly | icann-rdap-common/src/iana.rs:107-122 | a range of two numbers covers exactly what lies between them, and a single number itself |
| ClientLookups.GetTagBootstrapUrls | icann-rdap-common/src/iana.rs:180-195 | the loop answers with the first service whose first tag is the given one, and stops at a service without tags |
| ClientLookups.FirstTaggedDecides | icann-rdap-common/src/iana.rs:180-195 | the lookup succeeds if and only if all services before the first one with that first tag have a tag |
| SelfLinks.ObjectCommon.SetSelf | icann-rdap-common/src/response/types.rs:642-655 | the other links in order, then the given link as the self link |
| SelfLinks.ObjectCommon.ChangeSelf | icann-rdap-srv/src/storage/data.rs:417-434 | the self link is replaced if it has an address that holds the segment, and else nothing changes |
| SelfLinks.RSplitOnceFindsLast | icann-rdap-srv/src/storage/data.rs:421-422 | the split is at the last occurrence of the segment, and there is none exactly if it does not occur |
| SelfLinks.SetSelfLinkLeavesOne | icann-rdap-common/src/response/types.rs:642-661 | exactly one self link is left, it is last and the other links keep their order |
| SelfLinks.SetSelfLinkOverwrites | icann-rdap-common/src/response/types.rs:642-655 | setting twice is setting the second link |
| SelfLinks.ChangeGivesBaseAndId | icann-rdap-srv/src/storage/data.rs:417-434 | the new address is what stands before the last segment, then segment and id; an unusable link is left alone |
| SelfLinks.ChangeOverwritesExactly | icann-rdap-srv/src/storage/data.rs:417-434 | changing to one id and then another is changing to the second, if and only if the segment does not occur in the first id |
| Storage.LoadData | icann-rdap-srv/src/storage/data.rs:173-228 | a load overrides the visible store (or an empty one) with the records of all files in order, or changes nothing on the first error and without a directory |
| Storage.LoadFiles | icann-rdap-srv/src/storage/data.rs:195-218 | the transaction holds the records of the files in order, or the error is that of the first bad file |
| Storage.LoadTemplate | icann-rdap-srv/src/storage/data.rs:285-369 | one addition per id of the template, stopping at the first that fails |
| Storage.Transaction.Add | icann-rdap-srv/src/storage/mod.rs:64-127 | an addition overrides the pending records or leaves them |
| Storage.Transaction.Commit | icann-rdap-srv/src/storage/mod.rs:122-123 | committing makes the pending records visible |
| LoadHistory.LoadsWithoutTruncation | icann-rdap-srv/src/storage/data.rs:173-228 | without a truncating commit the visible store is the start overridden, in order, by all committed snapshots |
| LoadHistory.VisibleSinceTruncation | icann-rdap-srv/src/storage/data.rs:173-228 | over any sequence of loads the visible store is the override of the snapshots committed since the last truncating load |
| LoadHistory.FailedLoadChangesNothing | icann-rdap-srv/src/storage/data.rs:173-228 | a load that fails or finds no directory leaves no trace |
| LoadHistory.SnapshotKeys | icann-rdap-srv/src/storage/data.rs:173-228 | a key is loaded if and only if some file writes it |
| LoadedRecords.LastFileStores | icann-rdap-srv/src/storage/data.rs:173-228 | what a load leaves under each key: what the last file that stores the key stores there, and otherwise what was there before, unless the load truncates; it succeeds if and only if every file can be loaded by itself |
| LoadedRecords.FirstErrorOfLoad | icann-rdap-srv/src/storage/data.rs:195-218 | a load that fails fails with the error of the first file that cannot be loaded |
| LoadedRecords.ObjectFilesStore | icann-rdap-srv/src/storage/data.rs:230-254 | for all five kinds of object: exactly which keys a file of one stores, LDH and Unicode name, handle, every number of the range, every prefix; that the object stands there; and the error without them |
| LoadedRecords.TemplateFilesStore | icann-rdap-srv/src/storage/data.rs:283-369 | for all five kinds of template, objects and errors: a key is stored if and only if some id stands for it, and holds the object with the fields of the last such id and the self link rewritten for it, or the error |
| LoadedRecords.HelpFilesStore | icann-rdap-srv/src/storage/data.rs:256-281 | help is stored under the host that the file name spells with underscores for dots |
| LoadedRecords.OtherFiles | icann-rdap-srv/src/storage/data.rs:195-218 | what cannot be read or is not JSON fails, and files with other extensions are passed over |
| LoadedRecords.FilesWithoutExtension | icann-rdap-srv/src/storage/data.rs:195-218 | files without a dot, or with just one at the front, store nothing and do not fail |
| LoadHistory.DirectoryOrderIrrelevantExactly | icann-rdap-srv/src/storage/data.rs:195-218 | all orders of one directory fail together; if they succeed, all load the same records if and only if all files that write a key agree on its value |
| RedirectWalk.DomainByName | icann-rdap-srv/src/rdap/domain.rs:15-51 | the loop that shortens the name answers with the first redirect on the way up |
| RedirectWalk.StoredDomainAnswers | icann-rdap-srv/src/rdap/domain.rs:30-50 | a domain or redirect stored under the LDH name is the answer, in either mode, and failing that one under the Unicode name; without bootstrap otherwise what stands under the Unicode name, or not-found |
| RedirectWalk.CanonicalName | icann-rdap-srv/src/rdap/domain.rs:20-26 | upper case, white space around a name, and dots after all that, do not matter |
| RedirectWalk.NameserverByName | icann-rdap-srv/src/rdap/nameserver.rs:14-44 | the same for nameservers, with the bad request for names of fewer than two dots |
| RedirectWalk.StoredNameserverAnswers | icann-rdap-srv/src/rdap/nameserver.rs:14-44 | a nameserver or redirect stored under the name as given is the answer, in either mode; a name of fewer than two dots is a bad request whatever is stored |
| RedirectWalk.WalkFindsLongest | icann-rdap-srv/src/rdap/domain.rs:37-48 | the redirect found is the longest proper label suffix holding one, and none is found if and only if there is none |
| RedirectWalk.DomainWalk | icann-rdap-srv/src/rdap/domain.rs:37-50 | when the exact lookups find nothing the answer is that redirect, its address extended with path and name, or the original answer |
| RedirectWalk.NameserverWalk | icann-rdap-srv/src/rdap/nameserver.rs:26-43 | the same law for nameservers |
| RedirectWalk.BootstrapExtendsExactly | icann-rdap-srv/src/rdap/mod.rs:58-77 | a response is made a temporary redirect to its own target extended with path and id, if it is an error with a target, and else left as it is |
| BootstrapPasses.DataDir.RemovePrevious | icann-rdap-srv/src/bootstrap.rs:108-120 | exactly the files of the family go, in whatever order the directory is read |
| BootstrapPasses.DataDir.MakeTemplates | icann-rdap-srv/src/bootstrap.rs:122-160 | the templates of the services up to the first malformed one are written over the directory |
| BootstrapPasses.DataDir.FetchIanaRegistry | icann-rdap-srv/src/bootstrap.rs:311-339 | the cache file and the clock decide whether a request is made: fresh if the file can be read and is unexpired, an error if it cannot be read, and else the answer, which is then the new cache |
| BootstrapPasses.DataDir.RefreshFamily | icann-rdap-srv/src/bootstrap.rs:55-61 | one registry: untouched if fresh or not fetched; else new cache, old templates gone, and the new ones up to the first malformed service |
| BootstrapPasses.DataDir.ProcessBootstrap | icann-rdap-srv/src/bootstrap.rs:53-106 | the whole directory after a pass, failed or not: the registries are refreshed in turn up to the first failing one, that one as far as it gets, and a trigger is touched only if all succeed and something was fetched |
| BootstrapOutcomes.FetchedExactly | icann-rdap-srv/src/bootstrap.rs:318-338 | a registry is fetched if and only if the request is answered and there is no cache, or a readable one past its deadline; left alone if and only if its cache is good for some time yet; and asking fails if and only if the cache cannot be read or a needed request is not answered |
| BootstrapOutcomes.ReachedFamily | icann-rdap-srv/src/bootstrap.rs:53-106 | a family that a pass reaches holds exactly the templates of the answer if one is needed and given; otherwise it is as it was, and the pass fails unless the cache is fresh |
| BootstrapOutcomes.ServerBootstraps | icann-rdap-srv/src/bootstrap.rs:53-106 | from a directory without caches, or with expired ones, and with well-formed answers: the pass succeeds, all five families are complete, all five caches are written, and exactly one trigger is touched, `update` or `reload` as configured |
| BootstrapOutcomes.FreshPassChangesNothing | icann-rdap-srv/src/bootstrap.rs:53-106 | a pass over fresh caches changes nothing |
| ServerBootstrap.FamiliesDisjoint | icann-rdap-srv/src/bootstrap.rs:357-371 | the five prefixes are prefix-free: no file belongs to two families |
| ServerBootstrap.CachesNotOwned | icann-rdap-srv/src/bootstrap.rs:311-371 | neither caches nor triggers belong to a family |
| ServerBootstrap.TemplateNamesDiffer | icann-rdap-srv/src/bootstrap.rs:122-160 | templates of different services have different names |
| ServerBootstrap.TemplatesWritten | icann-rdap-srv/src/bootstrap.rs:122-309 | each template holds its own service, and no other file changes |
| ServerBootstrap.RefreshLeavesExactly | icann-rdap-srv/src/bootstrap.rs:108-160 | after a fetch, error-free or not, the files of the family are exactly the templates of the services before the first malformed one, the cache is the new one, and all other files are as they were |
| ServerBootstrap.RefreshIsCompleteExactly | icann-rdap-srv/src/bootstrap.rs:122-309 | a fetched family is complete if and only if no service is malformed |
| ServerBootstrap.MalformedExactly | icann-rdap-srv/src/bootstrap.rs:122-309 | which services are malformed, for each of the five registries |
| ServerBootstrap.RangeIsReadExactly | icann-rdap-srv/src/bootstrap.rs:179-197 | the texts that are read as ranges of numbers, and as which |
| ServerBootstrap.NoResidue | icann-rdap-srv/src/bootstrap.rs:53-120 | after an error-free refresh the files of the family are exactly the templates of the new services, whatever was there before |
| ServerBootstrap.RefreshIsLocal | icann-rdap-srv/src/bootstrap.rs:53-120 | a refresh, failed or not, leaves the templates and cache of other families and both triggers alone |
| ServerBootstrap.FileNames | icann-rdap-srv/src/bootstrap.rs:311-371 | the cache and the numbered templates of each of the five families, by name |
| BootstrapPasses.PassLeavesNoResidue | icann-rdap-srv/src/bootstrap.rs:53-106 | after any pass every family it reached and fetched holds exactly its new templates, up to the first malformed service; every other holds what it held |
| BootstrapPasses.FailedPassTouchesNoTrigger | icann-rdap-srv/src/bootstrap.rs:53-106 | a pass that fails touches no trigger, whatever it has already rewritten |
| BootstrapPasses.CacheIsFreshUntilDeadline | icann-rdap-srv/src/bootstrap.rs:311-333 | a cache that can be read keeps the registry from being requested exactly until the deadline that its HTTP data give |
| BootstrapPasses.FetchedCacheIsHeld | icann-rdap-srv/src/bootstrap.rs:334-339 | the cache written by a fetch can be read, also when the templates that follow fail |
| BootstrapPasses.PassesBeforeDeadline | icann-rdap-srv/src/bootstrap.rs:46-106 | any number of passes before the deadline of its cache leave a family as it is, complete or not, however they end |
| BootstrapPasses.PartialFamilyStays | icann-rdap-srv/src/bootstrap.rs:46-160 | when a pass ends at a malformed service of a fetched registry, the family holds exactly the templates before that service, and still does after any number of passes before the deadline of the cache |
| BootstrapAgreement.ServiceRecords | icann-rdap-srv/src/bootstrap.rs:122-309 | for each of the five registries: what the template of a service writes is the redirect to its URL, for the names, numbers of a range, networks or upper-cased tags it lists and for no other key |
| BootstrapAgreement.RedirectKeysAreEntries | icann-rdap-srv/src/bootstrap.rs:122-309 | for each of the five registries: after compiling and a truncating load, a key that only this family writes is in the store if and only if the registry lists it, with the redirect of a service listing it |
| BootstrapAgreement.UpdateMatchesRegistryExactly | icann-rdap-srv/src/storage/data.rs:371-389 | after an update, which does not truncate, the keys of a kind are those the registry lists, if and only if the registry lists every key of that kind that was in the store |
| BootstrapAgreement.CompiledStoreHoldsRegistry | icann-rdap-srv/src/bootstrap.rs:122-160 | with distinct entries the store determines the registry: every entry has its own URL |
| BootstrapAgreement.BothFindNothing | icann-rdap-srv/src/rdap/domain.rs:37-50 | when the client knows no server the server answers not-found |
| BootstrapAgreement.WalkStopsAtBoundaryBest | icann-rdap-srv/src/rdap/domain.rs:37-48 | the server's walk stops at the longest entry on a label boundary of the name, and finds none if and only if there is none |
| BootstrapAgreement.WalkStopsAtClientEntryExactly | icann-rdap-common/src/iana.rs:75-95 | the server's walk stops at the client's entry if and only if that entry stands on a label boundary of the name |
| BootstrapAgreement.SlashesAgreeExactly | icann-rdap-client/src/rdap/qtype.rs:75-103 | trimming all slashes and adding one agrees with adding one if missing, if and only if the URL does not end with two |
| BootstrapAgreement.ClientAndServerAgreeExactly | icann-rdap-client/src/rdap/qtype.rs:75-103 | for every plain query: the server redirects to the URL that the client would ask if and only if some entry stands on a label boundary and the URL of the longest such entry is the client's base with its trailing slashes replaced by one; not-found if the client knows no server |
| BootstrapAgreement.SameUrlsAgreeExactly | icann-rdap-client/src/rdap/qtype.rs:75-103 | when the longest entry on a boundary has the URLs of the client's entry, on or off a boundary, they agree if and only if the base URL does not end with two slashes |
| BootstrapAgreement.OnBoundaryAgreesExactly | icann-rdap-client/src/rdap/qtype.rs:75-103 | when the client's entry stands on a label boundary, they agree if and only if the base URL does not end with two slashes |
| BootstrapAgreement.CompiledServerAgreesExactly | icann-rdap-srv/src/bootstrap.rs:53-160 | the whole way, from refreshing and loading to answering: the redirect is the URL that the client would ask under that same condition, and only then |
| BootstrapAgreement.OneEntryAgrees | icann-rdap-srv/src/rdap/mod.rs:58-77 | for a registry of one entry and a name under it, the redirect and the client's URL are the same |
| BootstrapAgreement.OffBoundaryDisagrees | icann-rdap-common/src/iana.rs:75-95 | in a registry of one entry without a dot, a name that ends with the entry off a label boundary has a URL for the client and none for the server |
| FamilyAgreement.AlwaysRedirectsExactly | icann-rdap-srv/src/storage/data.rs:195-218 | whatever the order of the directory, the store redirects a listed key to a URL, if and only if all services listing it have that URL; for all five registries |
| FamilyAgreement.NumbersAgreeExactly | icann-rdap-srv/src/rdap/autnum.rs:13-24 | for every number: the client knows a server if and only if it is listed, and the server sends to the same address in every order of the directory if and only if all services listing it have the URL of the first one, with one slash at its end |
| FamilyAgreement.TagsAgreeExactly | icann-rdap-srv/src/rdap/entity.rs:14-34 | for every handle not itself stored: the server finds a redirect if and only if its tag is listed, and sends to the client's address in every order if and only if all services listing the tag have the client's URL, with one slash at its end |
| FamilyAgreement.SameTagsKnownExactly | icann-rdap-common/src/iana.rs:180-195 | client and server know the same tags if and only if each listed tag is the first of a service before which every service has a tag |
| FamilyAgreement.SecondTagUnknown | icann-rdap-common/src/iana.rs:180-195 | the registry whose second tag the server knows and the client does not |
| FamilyAgreement.LongestStoredIsLongest | icann-rdap-srv/src/storage/mem/ops.rs:120-164 | the stored network found is the longest that contains the one asked for, and none is found if and only if none contains it |
| FamilyAgreement.NetworksAgreeExactly | icann-rdap-srv/src/rdap/ip.rs:22-54 | for every network and both families: the client's server is one of the longest listed network containing it, and the server sends to the same address in every order if and only if all services listing that network have the client's URL, with one slash at its end |
| ReloadPolling.Reloader.Pass | icann-rdap-srv/src/storage/data.rs:380-400 | one pass of the polling loop: update first, then reload, each if newer than the last time, which it then becomes |
| ReloadPolling.Reloader.Loop | icann-rdap-srv/src/storage/data.rs:371-401 | any number of passes |
| ReloadPolling.RunAdvances | icann-rdap-srv/src/storage/data.rs:371-401 | in every run the last time never decreases and loads have strictly increasing times, so no touch is served twice |
| ReloadPolling.NewTouchIsServed | icann-rdap-srv/src/storage/data.rs:380-400 | after any passes, a loop still running serves an update touched later than all it has acted on |
| ReloadPolling.PassServesExactly | icann-rdap-srv/src/storage/data.rs:380-400 | a pass serves the update if and only if it is newer, and the reload if and only if it is newer than what the update has made of the last time and the update did not fail |
| ReloadPolling.PassCatchesUp | icann-rdap-srv/src/storage/data.rs:380-400 | the same triggers, seen again, load nothing |
| ReloadPolling.NoTouchNoLoad | icann-rdap-srv/src/storage/data.rs:380-400 | any number of passes without a touch load nothing |
| ReloadPolling.PassedOverForGood | icann-rdap-srv/src/storage/data.rs:380-400 | a touch not newer than the last time is never served, whatever happens later |
| ReloadPolling.ReloadBeforeUpdateIsLost | icann-rdap-srv/src/storage/data.rs:380-400 | a reload touched before an update that the same pass serves is lost for good |
| RetryLoop.WrappedRequest | icann-rdap-client/src/http/wrapped.rs:173-239 | at most maxRetries + 1 requests; the answer is the first that is not a 429 or the last 429; one pause per 429; the count of tries overflows if and only if 65535 retries are allowed and 65536 answers are 429 |
| RetryLoop.PauseBounds | icann-rdap-client/src/http/wrapped.rs:198-226 | every pause is between 1 and maxRetrySecs + 1 seconds, for all headers, past dates included |
| RetryLoop.TotalPauseBound | icann-rdap-client/src/http/wrapped.rs:182-239 | all pauses together are at most (maxRetries + 1) * (maxRetrySecs + 1) seconds |
| RetryLoop.PastDateWaitsLongest | icann-rdap-client/src/http/wrapped.rs:199-226 | a date in the past, cast to an unsigned number, makes the longest wait allowed |
| RetryLoop.PauseIsWhatIsAsked | icann-rdap-client/src/http/wrapped.rs:198-226 | the pause is one second more than the seconds asked for, or left until the date asked for, limited by the maximum; and than the default for none, zero, or no number |
| HttpCache.ExpiryHasOneDeadline | icann-rdap-common/src/httpdata.rs:90-118 | a response is expired exactly from one computable deadline on, so expiry is monotone in time |
| HttpCache.MaxAgeDecides | icann-rdap-common/src/httpdata.rs:90-118 | the first directive `max-age` among those of `Cache-Control` sets the deadline, limited by the configured age, whatever `Expires` says |
| HttpCache.ExpiresDecides | icann-rdap-common/src/httpdata.rs:90-118 | without one, `Expires` sets it if it is a date before the configured age ends |
| HttpCache.CacheFileRoundTrip | icann-rdap-common/src/httpdata.rs:129-147 | writing and reading by lines gives back the header and the lines of the body, even when the body holds separator lines |
| HttpCache.LinesLoseOnlyNewlines | icann-rdap-cli/src/dirs/fcbs.rs:82-91 | the lines of a text without carriage returns, joined, are the text without its newlines |
| BootstrapStores.MemoryBootstrapStore.PutBootstrapRegistry | icann-rdap-client/src/iana/bootstrap.rs:198-227 | a put overwrites its own slot and no other |
| BootstrapStores.MemoryBootstrapStore.FetchBootstrap | icann-rdap-client/src/iana/bootstrap.rs:339-354 | succeeds if the slot is fresh or the request answers, and puts only in the second case |
| BootstrapStores.MemoryBootstrapStore.GetDnsUrls | icann-rdap-client/src/iana/bootstrap.rs:229-235 | unavailable if and only if the slot is empty, and else the answer of the registry in it |
| BootstrapStores.MemoryBootstrapStore.GetAsnUrls | icann-rdap-client/src/iana/bootstrap.rs:237-243 | the same for numbers |
| BootstrapStores.MemoryBootstrapStore.GetIpv4Urls | icann-rdap-client/src/iana/bootstrap.rs:245-251 | the same for IPv4 networks |
| BootstrapStores.MemoryBootstrapStore.GetIpv6Urls | icann-rdap-client/src/iana/bootstrap.rs:253-259 | the same for IPv6 networks |
| BootstrapStores.MemoryBootstrapStore.GetTagUrls | icann-rdap-client/src/iana/bootstrap.rs:261-267 | the same for object tags |
| BootstrapStores.FileCacheBootstrapStore.FetchFileCacheBootstrap | icann-rdap-cli/src/dirs/fcbs.rs:75-92 | what the file was last written with, or an error if it is missing or cannot be parsed |
| BootstrapStores.FileCacheBootstrapStore.HasBootstrapRegistry | icann-rdap-cli/src/dirs/fcbs.rs:19-29 | false if there is no file, an error if it cannot be read, and else whether it is unexpired |
| BootstrapStores.FileCacheBootstrapStore.PutBootstrapRegistry | icann-rdap-cli/src/dirs/fcbs.rs:31-42 | the contents read afterwards are those before with the registry put; other files are untouched |
| BootstrapStores.FileCacheBootstrapStore.GetDnsUrls | icann-rdap-cli/src/dirs/fcbs.rs:44-48 | the memory store's answer on what the files hold |
| BootstrapStores.FileCacheBootstrapStore.GetAsnUrls | icann-rdap-cli/src/dirs/fcbs.rs:50-54 | the same for numbers |
| BootstrapStores.FileCacheBootstrapStore.GetIpv4Urls | icann-rdap-cli/src/dirs/fcbs.rs:56-60 | the same for IPv4 networks |
| BootstrapStores.FileCacheBootstrapStore.GetIpv6Urls | icann-rdap-cli/src/dirs/fcbs.rs:62-66 | the same for IPv6 networks |
| BootstrapStores.FileCacheBootstrapStore.GetTagUrls | icann-rdap-cli/src/dirs/fcbs.rs:68-72 | the same for object tags |
| BootstrapStores.FileCacheBootstrapStore.FetchBootstrap | icann-rdap-client/src/iana/bootstrap.rs:339-354 | as in memory, except that a file that cannot be read makes the fetch fail |
| BootstrapStores.WrittenCacheReads | icann-rdap-cli/src/dirs/fcbs.rs:31-92 | a written registry is read back with its HTTP data |
| BootstrapStores.CacheReadsExactly | icann-rdap-cli/src/dirs/fcbs.rs:75-92 | what reading any file comes to: header, separator line and registry, in this order, and what each missing part leads to |
| BootstrapStores.FilesRefineMemory | icann-rdap-cli/src/dirs/fcbs.rs:31-92 | after any puts every file can be read and the files hold what the memory would |
| BootstrapStores.LookupsAgree | icann-rdap-cli/src/dirs/fcbs.rs:31-92 | so every lookup, in any of the five registries, gives the same from the files as from memory |
| BootstrapStores.AnswerComesFromItsRegistry | icann-rdap-client/src/iana/bootstrap.rs:229-267 | each of the five lookups is answered from the registry of its own kind, and by no other |
| SharedStore.StepKeepsInv | icann-rdap-client/src/iana/bootstrap.rs:188-283 | every step of every client keeps the invariant on what a ready client may read |
| SharedStore.StepTouchesOneSlot | icann-rdap-client/src/iana/bootstrap.rs:198-227 | no step empties a slot, and only a put changes one, its own |
| SharedStore.SlotsNeverEmptyAgain | icann-rdap-client/src/iana/bootstrap.rs:188-283 | a slot once filled stays filled in every run |
| SharedStore.LookupNeverUnavailable | icann-rdap-client/src/iana/bootstrap.rs:339-354 | under any interleaving a lookup after a successful fetch finds a registry: the one the client saw unexpired or one put after its check |
| SharedStore.SeenWasFresh | icann-rdap-client/src/iana/bootstrap.rs:339-354 | in every run, what a client counts as seen is exactly what its own check found unexpired, at the place in the run where it checked |
| SharedStore.SlotsFollowLog | icann-rdap-client/src/iana/bootstrap.rs:198-227 | in every run the slots are what the sequence of puts makes of the start |
| SharedStore.ClientGetsThrough | icann-rdap-client/src/iana/bootstrap.rs:339-354 | whatever other clients do in between, a client whose request is answered ends with its lookup done |
| SharedStore.LaterCheckFetchesExactly | icann-rdap-client/src/iana/bootstrap.rs:188-354 | a client that looks later, however long, fetches exactly if the slot is empty or its deadline has come |
| CheckTree.TraverseChecks | icann-rdap-common/src/check/mod.rs:211-238 | the callback receives the calls of the specification after those it had, and the result is true if and only if there was a call |
| CheckTree.VisitsInOrder | icann-rdap-common/src/check/mod.rs:211-238 | the order of the visits is the strict preorder on addresses in the tree |
| CheckTree.VisitsComplete | icann-rdap-common/src/check/mod.rs:211-238 | every item of the tree is visited, and nothing else |
| CheckTree.CallbacksInPreorder | icann-rdap-common/src/check/mod.rs:211-238 | the calls are those for the visited items of the wanted classes, in that order, each with the path of all enclosing structures |
| CheckTree.TreeCalls | icann-rdap-common/src/check/mod.rs:211-238 | traversing reports an item of a wanted class as often as it stands in the tree |
| CheckTree.TreeNotCalled | icann-rdap-common/src/check/mod.rs:211-238 | an item of a class that is not wanted is never reported |
| CheckTree.NamesDiffer | icann-rdap-common/src/check/mod.rs:92-122 | no two structures are spelled alike in a path |
| ConformanceChecks.CheckConformance | icann-rdap-common/src/check/types.rs:25-45 | the misplaced check if the parent is not of the class of the root, then one check per unregistered extension |
| ConformanceChecks.SubCheckCommon | icann-rdap-common/src/check/types.rs:199-222 | conformance and notices if sub-checks are wanted, and the missing check whether or not they are |
| ConformanceChecks.SubCheckObject | icann-rdap-common/src/check/types.rs:222-323 | the trees of all nested entities, then of links, remarks, events, handle, status and port 43 |
| ConformanceChecks.CheckEntity | icann-rdap-common/src/check/entity.rs:13-67 | the recursion through nested entities, with the items for roles and the card |
| ConformanceChecks.CheckDomain | icann-rdap-common/src/check/domain.rs:9-27 | the sub-checks of a domain under its own class |
| ConformanceChecks.CheckNetwork | icann-rdap-common/src/check/network.rs:9-58 | the sub-checks of a network, with those of its prefixes |
| ConformanceChecks.CheckDomainSearch | icann-rdap-common/src/check/search.rs:7-28 | one tree per result, each under its own class |
| ConformanceChecks.CheckResponse | icann-rdap-common/src/check/mod.rs:189-204 | the dispatch over the ten kinds of response |
| ConformanceSites.LinkReports | icann-rdap-common/src/check/types.rs:71-118 | a link is reported once for each check it offends against, the ten offences being defined check by check on properties, relation, media type and the classes of parent and root |
| ConformanceSites.NotesTreeReports | icann-rdap-common/src/check/types.rs:120-175 | notices and remarks report each missing or single-string description once, and each offence of each of their links once |
| ConformanceSites.PublicIdsReport | icann-rdap-common/src/check/types.rs:177-198 | public ids report each missing type and each missing identifier once, and nothing else |
| ConformanceSites.EventsReport | icann-rdap-common/src/check/types.rs:258-285 | events report each missing date, each date that is not RFC 3339 and each missing action once |
| ConformanceSites.CidrsReport | icann-rdap-common/src/check/network.rs:20-55 | prefixes report each missing prefix and each missing length once, by version |
| ConformanceSites.RolePartReports | icann-rdap-common/src/check/entity.rs:34-45 | roles report each unknown role once, unless the list is empty or holds a blank role, which is reported once instead |
| ConformanceSites.VcardPartReports | icann-rdap-common/src/check/entity.rs:47-61 | a card is reported once if it is no contact, has no name or has a blank name |
| ConformanceSites.OwnReports | icann-rdap-common/src/check/types.rs:235-322 | an object reports each offence of its links, remarks, events, handle, status and port 43 once, and missing links once |
| ConformanceSites.CommonReports | icann-rdap-common/src/check/types.rs:200-220 | the shared fields report missing or misplaced conformance at most once, by the class of the structure and of the root, each unregistered extension once, and each offence of the notices |
| ConformanceSites.TreeReports | icann-rdap-common/src/check/mod.rs:189-204 | for every response and every check, the tree holds the check once for each site, in the root, nested entities at any depth and search members, that offends against it, and nowhere else |
| ConformanceSites.EveryOffenceIsReportedOnce | icann-rdap-common/src/check/mod.rs:189-238 | checking a response and traversing it for some classes reports each check of those classes once per offending site, and no check of another class |
| ConformanceSites.OffenceIsReported | icann-rdap-common/src/check/mod.rs:189-238 | what a check is made for is reported, wherever it stands in what is visited |
| ConformanceSites.UnregisteredExtensionIsReported | icann-rdap-common/src/check/types.rs:25-45 | an unregistered extension is a warning in any response |
| ConformanceSites.BadCardIsReported | icann-rdap-common/src/check/entity.rs:47-61 | a card that reads as no contact, or as one without a name, is an error in any response |
| ConformanceSites.RedirectLinkIsInOrder | icann-rdap-common/src/response/error.rs:38-52 | the link of a redirect gives the target as address and value, and in whatever object it stands it offends against none of the checks of links |
| ConformanceSites.ReportClasses | icann-rdap-common/src/check/mod.rs:211-238 | the program that makes these reports: the checks of the response, traversed for the wanted classes |
| ConformanceCounts.VisitedOrEmbedded | icann-rdap-common/src/response/domain.rs:164-172 | all structures below the root that may hold `rdapConformance`, at any depth, are the visited and the embedded ones, each once |
| ConformanceCounts.PlacementReports | icann-rdap-common/src/check/types.rs:25-220 | under a root other than an entity: missing exactly once if and only if the root lacks `rdapConformance`, misplaced exactly once for each visited entity and search member carrying it |
| ConformanceCounts.EntityRootReports | icann-rdap-common/src/check/entity.rs:13-30 | under an entity: missing once for every visited entity lacking it, misplaced never |
| ConformanceCounts.PlacementRightExactly | icann-rdap-common/src/check/types.rs:25-220 | the reports are those of section 4.1 of RFC 9083, over all structures of the response, if and only if the root is not an entity with entities nested in it and no embedded structure, at any depth, carries `rdapConformance` |
| ConformanceCounts.NameserverGoesUnreported | icann-rdap-common/src/check/domain.rs:9-27 | the domain whose nameserver, and an entity inside it, carry `rdapConformance` without any report |

## Left out

- HTTP, TLS, DNS resolution, sockets, task scheduling and real file I/O: only the sequence of responses, the state of the directory and the clock remain.
- Errors of the store during lookups, poisoned locks, and failures to write or list files: the operations that meet them return at once.
- The PostgreSQL store, and the range map and prefix trie of the memory store: storage is the map that the contracts in `icann-rdap-srv/src/storage/mod.rs` describe. The domain search index is not part of it.
- The decomposition of address ranges into networks: objects and templates of networks carry the networks, because a library computes them, so the errors for a missing or unreadable address or version do not occur. A range of numbers whose end precedes its start holds no number; the range map stops the program there.
- PrefixIndex: the prefix map is a bit trie written for this model in place of the library's; the scan that it refines does not depend on it.
- `add_voice_phones` and `add_fax_phones`, which do not store the list they append to; nothing is claimed about accumulation.
- JcardRoundTrip.RoundTripExactly: a full address counts as well formed only if its text parses as the JSON string of the same text, because the writer parses it; contacts whose full address is not JSON text stop the program and are excluded.
- JcardRoundTrip.NormalizeIdempotent: assumes that lower-casing is idempotent and that there is no full address.
- RedactionRuns.RunMarks: assumes that the edits for the places that can be selected reach just those that hold strings; `RedactionIsRightExactly` says that no weaker condition does, and `Redaction.EditMarksExactly` and `Redaction.EditSparesExactly` say what one edit does anywhere.
- RedactionRuns.RightForDocumentExactly: assumes that the engine that replaces selects by the shape of a document, without filters that look at strings; `RedactionIsRightExactly` does without, and speaks of all documents of a shape.
- The conversion between typed responses and JSON around `convert_redactions`, and the table of redactions in the Markdown output.
- RetryLoop.WrappedRequest: the overflow of the count of tries stops the program, as it does with overflow checks on; a `Retry-After` header that is not text, which also stops it, is left out.
- HttpCache.ExpiryHasOneDeadline: times are unbounded, so the overflow of the date library for enormous ages is not modelled.
- BootstrapStores.FileCacheBootstrapStore.GetDnsUrls: requires that the file has a separator line if its header parses, because the program stops otherwise.
- ConformanceChecks.CheckDomain: the checks of fields that only domains, nameservers, autnums or networks have are given as a list of results; each is settled by one branch.
- ConformanceChecks.CheckNetwork: the same for the address fields of a network.
- ConformanceChecks.CheckEntity: `asEventActor` of an entity and `secureDNS` of a domain, which the checks pass over and which cannot hold `rdapConformance`, are not fields of the model.
- BootstrapPasses.DataDir.FetchIanaRegistry: a cache whose header parses but which has no separator line, which stops the program, counts as an error; failures to read a file that is there are the contents other than text.
- FamilyAgreement.NetworksAgreeExactly: as for domain names, tags and numbers, percent-encoding must leave the text of the query as it is. Where it does not, as it may for the colons of an IPv6 address, the two addresses are spelled differently; texts of networks and addresses are parsed by a library.
- Search queries, query classification, and the URLs of nameserver, search and help queries.
- The HTTP-level checks of `icann-rdap-common/src/check/httpdata.rs`, Markdown, gTLD whois and table output, command line handling, exit codes, logging, builders and constant tables.

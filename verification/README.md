# Verified models of the attended redactors, schema codecs, field scanner and daemon client

This project models five components of the repository and proves what they promise, for every input and every run.

* **Streaming redaction.** `scripts/attended-pty.py` and `scripts/attended-redact.exs` replace credentials in a byte
  stream that arrives in arbitrary pieces. `Redaction` says byte by byte what redaction is, `RedactionClusters` shows
  that this is one marker per cluster of overlapping occurrences, `RedactionStream` shows that every way of cutting
  the stream publishes exactly that, and `RedactionGuarantees` adds that no key survives, that little is held and that
  nothing is held back without need. `PtyRedactor` is the Python object with its loops and `BeamRedactor` the Elixir
  recursion; both are proved to take the same closed-form step.
* **Notices and the attended driver.** `Notices` is the byte automaton that recognises the two prompts that may be
  answered, with a specification over lines, and `NoticeLines` says line by line and with either line end what it sees;
  `Attended` is the driver that feeds redactor and automaton, answers, and decides on the exit status,
  `AttendedSummary` reads its summary back and says which reason it gives, and `AttendedExamples` runs it on the notices
  themselves.
* **Canonical schema bytes and the strict JSON reader.** `Canonical` encodes a JSON tree as `clients/node/contract-manifest.mjs`
  does; `CanonicalForm` gives the bytes of every kind of value; `CanonicalCode` and `CanonicalIdentity` show that the
  code is decodable and prefix-free, and that two values have the same bytes exactly when they are equal up to member
  order. `SchemaJson` reads text recursively,
  `SchemaSpelling` describes all spellings of a value, `SchemaRoundTrip` shows that the two fit exactly, and
  `SchemaMeaning` what numbers, escapes and literals stand for;
  `SchemaParser` is the object that moves a position through the text, and `SchemaDigest` joins both halves.
* **The daemon connection.** `Daemon` is the step system of `clients/node/daemon-client.mjs`, in which a delivery and
  the code after an `await` are separate steps; `DaemonGate`, `DaemonStance`, `DaemonRouting`, `DaemonDelivery`, `DaemonWaiting`
  and `DaemonRuns` prove its invariants over all runs, and `DaemonConnection` is the object whose methods take those steps
  on private fields and stay on a run.
* **The field scanner.** `scripts/json-field.awk` reads one string out of a JSON document. `FieldDecode` and `FieldEmit`
  are its two string decoders, `FieldAgreement` says exactly when they agree and `FieldMeaning` what they mean, `FieldScan` is the
  scanner as an automaton over bytes, `FieldTokens` shows that it closes only complete strings, `FieldReader` is the
  program over records, and `FieldDocument`, `FieldQuiet`, `FieldTree`, `FieldLookup` and `FieldProgram` show that the
  program on the text of a document is a last-wins lookup in its tree.

`Identities` covers the base64url identities of the Node decoders, and `IdentitySpelling` their bits and alphabet. `Bytes`, `Options`, `Integers`, `Sequences`,
`Characters`, `Lines` and `Unicode` are shared.

Reads, chunks, parsed records, the moment a timer fires, process outcomes and the number of elapsed seconds are inputs.
Continuations after `await` may run in any order the steps allow, which includes every order the runtime produces.

Findings that differ from a plain reading of the sources:

* The comment above the splitting decoder of `scripts/json-field.awk` says correctness is unchanged by splitting. The
  two decoders differ on some closed strings; `FieldAgreement.DecodersAgree` gives the exact condition.
* The attended driver types at most one answer after a read. Two notices that arrive in the last read therefore fail the
  run, although both were seen in order; `Attended.ScheduleCounts` and `Attended.Attend` give the exact condition and
  `AttendedExamples.SameOutputOtherVerdict` such a run.
* A member of the looked-for name that holds an array can be mistaken for an object, using the key left over from an
  earlier object; `FieldLookup.SelectsLastBinding` gives the exact condition and `FieldLookup.ArrayIsMistaken` a
  document.

## Model

| member | source | states |
|---|---|---|
| RedactionClusters.SpansAreClusters | scripts/attended-pty.py:117-125 | two occurrences lie in one span exactly when a chain of occurrences, each sharing a byte with the next, links them; touching is not sharing |
| RedactionClusters.MarkerPerCluster | scripts/attended-pty.py:95-107 | a position yields the marker exactly when it is the first byte of the earliest occurrence of a cluster |
| RedactionStream.StepPublishes | scripts/attended-pty.py:89-115 | a feed that is not final outputs exactly the stretch of the whole stream's redaction between the old and the new published position, whatever comes later |
| RedactionStream.StepTracks | scripts/attended-pty.py:108-115 | after every such feed each occurrence not yet complete begins at or after the held bytes, and each complete one that began earlier is inside the published span |
| RedactionStream.FinalStepPublishes | scripts/attended-pty.py:89-115 | a final feed outputs all the rest of the redaction and holds nothing |
| RedactionStream.FeedRefines | scripts/attended-pty.py:89-115 | after any number of feeds the output so far is a prefix of the redaction of every continuation of the stream |
| RedactionStream.LastFeedJoins | scripts/attended-pty.py:89-115 | for every cut of a stream and every last final feed, the outputs join to the one-shot redaction of the whole |
| RedactionStream.ChunkIndependence | scripts/attended-pty.py:203-215 | a run that ends in an empty final feed publishes the one-shot redaction, however the stream was cut |
| RedactionGuarantees.HeldIsBounded | scripts/attended-pty.py:108-115 | after a feed that is not final fewer bytes are held than the longest key has, and no more are covered than held |
| RedactionGuarantees.FeedIsPrompt | scripts/attended-pty.py:127-134 | everything before the first tail that could still begin a key has been published |
| RedactionGuarantees.QuiescentOutput | scripts/attended-pty.py:127-134 | when no tail of the stream is a proper prefix of a key, what was published is already the one-shot redaction |
| RedactionGuarantees.NoKeySurvives | scripts/attended-pty.py:44-53 | the one-shot redaction with a safe marker contains no key, inside copied text or across a marker's edge |
| RedactionGuarantees.RunHidesKeys | scripts/attended-pty.py:89-115 | the joined outputs of any chunked run contain no key |
| RedactionGuarantees.FlushJoins | scripts/attended-pty.py:336-357 | flushing before text whose first byte is in no key redacts as if both had come together |
| PtyRedactor.ReplacementFor | scripts/attended-pty.py:44-53 | the loop returns the first candidate that is safe for all keys, and nothing exactly when none is |
| PtyRedactor.MarkerExists | scripts/attended-pty.py:44-53 | for nonempty keys without NUL some candidate is safe |
| PtyRedactor.UsualMarker | scripts/attended-pty.py:41-53 | keys that share no byte with [REDACTED] are replaced by exactly that marker |
| PtyRedactor.CandidatesAre | scripts/attended-pty.py:41-47 | the four words, the printable single bytes and NUL, in the order in which they are tried |
| PtyRedactor.OrderedKeeps | scripts/attended-pty.py:80-82 | the keys kept are the nonempty ones, longest first |
| PtyRedactor.WidthFits | scripts/attended-pty.py:82 | the width is the length of a longest key, and at least 1 |
| PtyRedactor.Redactor.Open | scripts/attended-pty.py:80-87 | building a redactor fails exactly when no candidate marker is safe; otherwise it starts empty with the first safe one |
| PtyRedactor.Redactor.Feed | scripts/attended-pty.py:89-115 | output, held bytes and covered count are those of the closed-form step on the held bytes and the data |
| PtyRedactor.Redactor.Scan | scripts/attended-pty.py:95-107 | the loop arrives at the boundary the specification names, knows the span that ends there, and has written the redaction up to it |
| PtyRedactor.Redactor.Earliest | scripts/attended-pty.py:96-98 | the first position where any key occurs, with the longest key that occurs there, or that there is none |
| PtyRedactor.Redactor.SpanEnd | scripts/attended-pty.py:117-125 | the end of the span: every boundary it passed is straddled, and no occurrence that begins in the span reaches past it |
| PtyRedactor.Redactor.HoldStart | scripts/attended-pty.py:127-134 | the first position whose tail is a proper prefix of a key, found within the last width minus one bytes |
| PtyRedactor.Redactor.RedactAll | scripts/attended-pty.py:203-215 | reading until the end publishes the one-shot redaction of the whole input, and no key is in it |
| BeamRedactor.SameMarker | scripts/attended-redact.exs:69-86 | from the same NUL-free credentials the marker this redactor chooses is exactly the one the other chooses from its own ordering and candidates |
| BeamRedactor.LineEndIsSafe | scripts/attended-redact.exs:133-139 | no key without line breaks can begin before the end of the last completed line |
| BeamRedactor.HoldStartIsSafe | scripts/attended-redact.exs:141-172 | the line shortcut and the search from the width bound give the same hold position as a search from the start |
| BeamRedactor.ScanArrives | scripts/attended-redact.exs:174-203 | from any stage of the scan the recursion ends in the output, cursor and span the specification names |
| BeamRedactor.EarliestIsFirst | scripts/attended-redact.exs:205-218 | the fold over the keys finds an occurrence before which there is none at or after the cursor, and at which no longer key occurs |
| BeamRedactor.RedactIsAdvance | scripts/attended-redact.exs:132-160 | for keys without line breaks the step equals the closed-form step, final or not |
| BeamRedactor.SameStep | scripts/attended-redact.exs:132-218 | from the same credentials and state both redactors give the same output, held bytes and covered count |
| BeamRedactor.StreamIsOneShot | scripts/attended-redact.exs:91-124 | streaming any chunks and flushing gives the one-shot redaction |
| BeamRedactor.RedactorsAgree | scripts/attended-redact.exs:69-160 | from the same credentials, free of NUL and line breaks, and each with the marker it chooses, both redactors publish the same bytes for every stream and every cut |
| Notices.Watcher.Feed | scripts/attended-pty.py:144-158 | the loop over the bytes moves the fields as the automaton does |
| Notices.Watcher.Line | scripts/attended-pty.py:160-170 | a complete line counts as the next expected notice, as a failure or as nothing |
| Notices.AutomatonReads | scripts/attended-pty.py:137-170 | over every stream the failure is unset exactly when the notices, overlong ones included, are a prefix of the two expected; then each was counted |
| Notices.ReadsJoin | scripts/attended-pty.py:144-158 | how the output is cut into reads makes no difference |
| NoticeLines.FirstMeans | scripts/attended-pty.py:20-25 | the first notice is one exact text |
| NoticeLines.SecondMeans | scripts/attended-pty.py:26-30 | the second notice is any 64 lower-case hexadecimal digits between two exact texts |
| NoticeLines.PrefixedMeans | scripts/attended-pty.py:31-34 | a line resembles a notice exactly when it begins with one of the two texts |
| NoticeLines.CarriageReturnEndsLine | scripts/attended-pty.py:144-158 | from every state at the beginning of a line, a line ended by CR LF does what it does ended by LF: it is judged without the CR |
| NoticeLines.NoticeIsSeen | scripts/attended-pty.py:144-170 | an exact notice is seen as that notice, whether LF or CR LF ends it |
| NoticeLines.OverlongCounts | scripts/attended-pty.py:153-158 | a line of more than 8192 bytes counts at once as a notice out of place exactly when it begins like one, and its end adds nothing |
| NoticeLines.OtherLineCounts | scripts/attended-pty.py:160-170 | a line that is no notice counts as one out of place exactly when it begins like one |
| Attended.ScheduleCounts | scripts/attended-pty.py:323-332 | with no notice out of place, a first answer is typed exactly when some read brings output with a notice seen by then, and a second exactly when a later read brings output with both seen by then |
| Attended.ScheduleIsDue | scripts/attended-pty.py:323-332 | answers never exceed the notices seen, and none is typed after a notice out of place |
| Attended.TooLateToAnswer | scripts/attended-pty.py:330-332 | when no notice is seen before the last read, two answers are never typed, whatever that read brings |
| AttendedExamples.CuttingDecides | scripts/attended-pty.py:320-332 | for any two lines that are the notices, each ended by LF or by CR LF: read at once they are both seen, one answer is typed and the run fails for want of the second; read one by one both answers are typed and the run succeeds |
| AttendedExamples.SameOutputOtherVerdict | scripts/attended-pty.py:345-358 | two runs of the very same output, with the two notices spelled out and either line end: not cut it fails, cut between the lines it succeeds |
| Attended.React | scripts/attended-pty.py:320-332 | a read that brings output is answered exactly when no notice is out of place so far and more were seen than answered, and the first failure is kept |
| Attended.Watch | scripts/attended-pty.py:308-334 | over all reads the transcript and what is held are those of the redactor, answers are typed exactly as scheduled by the notices seen, and the failure is the first one |
| Attended.FlushThenText | scripts/attended-pty.py:336-357 | the final flush and the summary together read as one redaction of the output followed by the summary |
| Attended.Attend | scripts/attended-pty.py:285-358 | the transcript is the redaction of all output and the summary and contains no key; the answers and the failure are given by the inputs; exit 0 exactly when the two notices and no other were seen, with one read to answer each, the release exited 0, nothing interrupted and the terminal closed |
| AttendedSummary.SummaryMeans | scripts/attended-pty.py:351-357 | split into lines, the summary gives back under their names the exit status, the number of answers and the duration as decimal numerals, and in a line of its own the reason of a failed run |
| AttendedSummary.ReasonIs | scripts/attended-pty.py:305-350 | exactly when each reason is the one given: a notice out of place, else a terminal left open, else an interruption, else answers missing, else a release that failed |
| Canonical.DigitLoop | clients/node/contract-manifest.mjs:42-45 | the loop gives the base-256 digits, least significant first |
| CanonicalForm.IntegerForm | clients/node/contract-manifest.mjs:36-46 | 0 to 255 take the tag 97 and that byte, other 32-bit integers 98 and four bytes of two's complement, all others 110 with length, sign byte and magnitude without a zero byte in front |
| CanonicalForm.OtherNumbers | clients/node/contract-manifest.mjs:36-38 | -0 has the form of 0; a number is encodable exactly when it is a safe integer |
| CanonicalForm.AtomForm | clients/node/contract-manifest.mjs:10-34 | null, true and false are the small atoms nil, true and false |
| CanonicalForm.TextForm | clients/node/contract-manifest.mjs:13-17 | a string is the tag 109, the number of its UTF-8 bytes in four and those bytes |
| CanonicalForm.ByteListForm | clients/node/contract-manifest.mjs:47-57 | 1 to 65535 integers that all are 0 to 255 take the tag 107, their number in two bytes and one byte each |
| CanonicalForm.ListForm | clients/node/contract-manifest.mjs:18-58 | any other array is 106 when it is empty, else 108, the number of items in four bytes, the items in order and 106 |
| CanonicalForm.ObjectForm | clients/node/contract-manifest.mjs:60-67 | a map head with the atom loopex_map, then a list of pairs, one for each member, the encoded keys increasing byte by byte |
| CanonicalForm.LessPrecedes | clients/node/contract-manifest.mjs:64-66 | of two keys in order the earlier has the smaller byte at the first difference, or ends there |
| CanonicalCode.SortCommutes | clients/node/contract-manifest.mjs:64-66 | sorting the encoded entries is encoding the members sorted by encoded key |
| CanonicalCode.RoundTrip | clients/node/contract-manifest.mjs:32-69 | a decoder recovers every encodable value, up to member order and the sign of zero, from its bytes followed by anything |
| CanonicalIdentity.EncodeAccepts | clients/node/contract-manifest.mjs:13-69 | encoding succeeds exactly for safe integers and well-formed strings within the size fields |
| CanonicalIdentity.CanonIdentifies | clients/node/contract-manifest.mjs:60-67 | sorted normal forms are equal exactly when the values have the same members in any order, at every depth |
| CanonicalIdentity.EncodeCanon | clients/node/contract-manifest.mjs:60-67 | a value and its normal form have the same bytes |
| CanonicalIdentity.BytesIdentify | clients/node/contract-manifest.mjs:71-73 | two values with distinct keys have the same canonical bytes exactly when they are equal up to member order, with -0 equal to 0 |
| CanonicalIdentity.PrefixFree | clients/node/contract-manifest.mjs:71-73 | no canonical encoding is a proper prefix of another |
| SchemaRoundTrip.SpellingIsRead | clients/node/contract-manifest.mjs:82-140 | every spelling of a value is read as that value and to the end |
| SchemaRoundTrip.ReadIsSpelling | clients/node/contract-manifest.mjs:82-140 | every text that is read is a spelling, with distinct decoded keys, of the value that was read |
| SchemaRoundTrip.AcceptedIffSpelled | clients/node/contract-manifest.mjs:82-140 | a text is read as a value exactly when it spells it |
| SchemaMeaning.IntegerIsRead | clients/node/contract-manifest.mjs:127-135 | the decimal numeral of every safe integer, after a minus sign when it is negative, is read as that integer |
| SchemaMeaning.NumberMeans | clients/node/contract-manifest.mjs:127-135 | every spelling of a number is the decimal numeral of a magnitude up to 2^53 - 1 and means it with its sign, and minus zero for -0 |
| SchemaMeaning.TooGreatIsRefused | clients/node/contract-manifest.mjs:130-133 | the numeral of every other integer is refused |
| SchemaMeaning.EscapeMeans | clients/node/contract-manifest.mjs:86-98 | a backslash and a letter spell a character exactly when section 7 of RFC 8259 gives the letter one, and spell that one |
| SchemaMeaning.HexMeans | clients/node/contract-manifest.mjs:86-98 | four digits of a hexadecimal table, and nothing else, spell the code unit they write |
| SchemaMeaning.WellFormedMeans | clients/node/contract-manifest.mjs:86-98 | a string is accepted exactly when it is the UTF-16 form of some sequence of scalar values |
| SchemaMeaning.NullMeans | clients/node/contract-manifest.mjs:127-129 | the text null is null |
| SchemaMeaning.TrueMeans | clients/node/contract-manifest.mjs:127-129 | the text true is true |
| SchemaMeaning.FalseMeans | clients/node/contract-manifest.mjs:127-129 | the text false is false |
| SchemaParser.Parser.Whitespace | clients/node/contract-manifest.mjs:85 | the position moves past the white space and no further |
| SchemaParser.Parser.String | clients/node/contract-manifest.mjs:86-98 | a string token is taken or refused as the recursive reader does |
| SchemaParser.Parser.Scan | clients/node/contract-manifest.mjs:87-98 | the loop stops behind the first quote that no backslash escapes |
| SchemaParser.Parser.Array | clients/node/contract-manifest.mjs:103-126 | the loop over items fills the array the recursive reader gives |
| SchemaParser.Parser.Object | clients/node/contract-manifest.mjs:103-126 | the loop over members fills the object the recursive reader gives and refuses a repeated key |
| SchemaParser.Parser.Scalar | clients/node/contract-manifest.mjs:127-135 | literals and safe integers are taken, anything else is refused |
| SchemaParser.Parser.Value | clients/node/contract-manifest.mjs:99-136 | any value is taken as the recursive reader takes it, and the position advances |
| SchemaParser.ParseSchemaJson | clients/node/contract-manifest.mjs:82-140 | the parser terminates and returns a value exactly on the spellings of that value, and refuses every other text |
| SchemaDigest.AcceptedIsEncodable | clients/node/contract-manifest.mjs:71-140 | a value that was read has distinct keys at every depth and is encodable exactly when its sizes fit |
| SchemaDigest.DigestIgnoresSpelling | clients/node/contract-manifest.mjs:71-140 | two accepted texts give the same canonical bytes exactly when their values are equal up to member order |
| Unicode.TextInverts | clients/node/contract-manifest.mjs:13-17 | UTF-8 bytes determine every well-formed string |
| Unicode.ScalarsOfUnits | clients/node/contract-manifest.mjs:13-17 | the UTF-16 form of any scalar values is decoded to exactly those |
| DaemonRuns.StepKeeps | clients/node/daemon-client.mjs:47-192 | every step keeps all invariants: identities, conservation, gate, routing, arrival order, waiting and framing |
| DaemonRuns.NegotiationGate | clients/node/daemon-client.mjs:61-101 | over all runs other frames are written only when verified and after a matching reply, one negotiation is in flight, and nothing is written after a mismatched reply |
| DaemonRuns.NegotiationIsHistory | clients/node/daemon-client.mjs:61-101 | over all runs the state of negotiation, now and when each frame was written, is that which the earlier frames and their replies leave: a pinned contract verifies, invalid_request and already_initialized change nothing, any other reply refuses; so after a refusal no session frame is written until a later initialize has been answered with the pinned contract |
| DaemonRuns.RequestConservation | clients/node/daemon-client.mjs:51-83 | over all runs identities never repeat; a request is pending exactly while the socket has not closed and no record other than an event delivered after its frame carries its identity; else it was resolved by a delivered record that carries it, or rejected when the socket closed |
| DaemonRuns.RecordRouting | clients/node/daemon-client.mjs:160-181 | over all runs every record went where it belongs by its kind, its identity and what was written and delivered before it; events, progress and notices hold theirs in arrival order, and a request was resolved by the record that went to it |
| DaemonRuns.Framing | clients/node/daemon-client.mjs:149-158 | over all runs the records delivered are the nonempty lines of the stream and the buffer is its unterminated rest |
| DaemonRuns.WaitsAreAnswered | clients/node/daemon-client.mjs:118-130 | over all runs every wait is exactly one of live, answered and timed out; no live one asked for a stored event, and an answered one got the earliest it asked for |
| DaemonRuns.ReceivedIsChunks | clients/node/daemon-client.mjs:149-158 | the stream is the concatenation of the chunks, so framing does not depend on the chunking |
| DaemonGate.RequestIdsDiffer | clients/node/daemon-client.mjs:73 | different counters give different identities |
| DaemonGate.RequestIdIs | clients/node/daemon-client.mjs:73 | an identity is the letter n and the decimal numeral of the counter |
| DaemonGate.GateAfterContinue | clients/node/daemon-client.mjs:83-101 | the code after the await keeps the gate, whichever reply came |
| DaemonStance.NegotiatedIsStance | clients/node/daemon-client.mjs:85-98 | what each kind of reply makes of the state before it, and when the connection closes itself |
| DaemonRouting.RoutedInAfterDeliver | clients/node/daemon-client.mjs:160-181 | a delivery sends the record where it belongs and settles exactly the open request whose identity it carries |
| DaemonWaiting.WaitingAfterEvent | clients/node/daemon-client.mjs:165-169 | after an event exactly the waiters that want no stored event stay, and those that left got the earliest they wanted |
| DaemonConnection.Connection.Request | clients/node/daemon-client.mjs:61-82 | exactly when a frame is written, by the state of negotiation; the state stays that of a run; the frame has an identity of its own and, unless it is an initialize request, a reply with the pinned contract came before it and none since that refuses |
| DaemonConnection.Connection.Resume | clients/node/daemon-client.mjs:83-100 | the state stays that of a run; a matching reply verifies, another contract refuses and closes, an error with one of the two harmless codes restores the state before the request, any other refuses without closing, and the end of any other request moves nothing |
| DaemonConnection.Connection.WaitForEvent | clients/node/daemon-client.mjs:118-130 | the state stays that of a run; the earliest stored event that is wanted, or no such event and one more waiter |
| DaemonConnection.Connection.OnTimeout | clients/node/daemon-client.mjs:123-126 | the state stays that of a run; the waiter of that timer leaves and every other stays |
| DaemonConnection.Connection.OnSocketClose | clients/node/daemon-client.mjs:51-58 | the state stays that of a run; nothing stays pending, everything that was is handed out as rejected, and the waits answered now with their events |
| DaemonConnection.Connection.Deliver | clients/node/daemon-client.mjs:160-181 | one record goes to its destination, as the step says; the request it resolves with it, and the waits it answers with their events, are handed out and are exactly the new outcomes and answers |
| DaemonConnection.Connection.ReleaseWaiters | clients/node/daemon-client.mjs:183-192 | the waiters with a stored event leave, each handed out with the earliest one it wants, and these are exactly the new answers |
| DaemonConnection.Connection.OnData | clients/node/daemon-client.mjs:50 | a chunk leaves the state that of a run, adds to the text received and writes nothing; the requests it resolves and the waits it answers are handed out with their records |
| DaemonConnection.Connection.Absorb | clients/node/daemon-client.mjs:149-158 | all complete lines are delivered in order and the rest stays in the buffer |
| FieldDecode.HexVal | scripts/json-field.awk:107-118 | the digit loop gives the number of four hex digits and -1 for anything else |
| FieldDecode.Unescape | scripts/json-field.awk:22-79 | the loop over the token decodes its pieces: plain bytes, short escapes, code points, adjacent surrogate pairs, bad and dangling escapes |
| FieldEmit.EmitUnescaped | scripts/json-field.awk:151-199 | the loop over the parts between backslashes writes what the recursive definition over parts gives |
| FieldEmit.EmitIsBridged | scripts/json-field.awk:151-199 | on closed tokens the splitting decoder drops up to four plain bytes after a bad escape and joins surrogates across plain text, and otherwise decodes piece by piece |
| FieldAgreement.DecodersAgree | scripts/json-field.awk:142-199 | on a closed token the two decoders write the same bytes exactly when no bad escape precedes plain text and no plain text lies between a high and a low surrogate |
| FieldAgreement.DecodersDifferOnBadHex | scripts/json-field.awk:168-174 | a bad escape followed by a letter is decoded differently |
| FieldMeaning.DecodersMean | scripts/json-field.awk:22-79 | on every string of characters, escapes, surrogate pairs and lone surrogate escapes the walking decoder gives the UTF-8 of its characters with U+FFFD for each lone surrogate and for NUL, and the splitting decoder the same exactly when nothing is skipped |
| FieldMeaning.DecodersMeanRfc | scripts/json-field.awk:142-199 | on every well-formed string without lone surrogates both decoders give the UTF-8 of the characters of section 7 of RFC 8259, NUL replaced by U+FFFD |
| FieldMeaning.UnknownEscape | scripts/json-field.awk:70-76 | any other letter after a backslash stands for itself in both decoders |
| FieldMeaning.BadHexStays | scripts/json-field.awk:42-47 | an escape without four hexadecimal digits is kept as it is by the walking decoder |
| FieldAgreement.LongEnough | scripts/json-field.awk:201-216 | a closed token is at most six times as long as what it decodes to, and has no more quotes in it |
| FieldAgreement.PruningLosesNothing | scripts/json-field.awk:201-216 | not decoding long keys never changes whether a key spells a given name |
| FieldScan.InsideRecord | scripts/json-field.awk:92-105 | reading a record inside a string leaves the automaton escaped exactly when the record ends in an odd number of backslashes |
| FieldScan.OutsideRecord | scripts/json-field.awk:269-303 | a record between strings tells the string before it a key or a value, then moves the depth, exactly as reading it byte by byte does |
| FieldTokens.TokensAreEven | scripts/json-field.awk:92-105 | a text has complete escapes and no unescaped quote exactly when every quote follows an odd and its end an even number of backslashes |
| FieldTokens.ClosedIsToken | scripts/json-field.awk:262-268 | on every input, well-formed or not, a string the scanner has closed is such a token |
| FieldTokens.PrintsOneToken | scripts/json-field.awk:306-331 | on every input what is printed is nothing or one decoded token, and it is the character-by-character decoding exactly when nothing is skipped |
| FieldReader.OddBackslashes | scripts/json-field.awk:97-105 | the count from the end has the parity of the trailing run |
| FieldReader.JoinPieces | scripts/json-field.awk:85-90 | the pieces joined with quotes between them |
| FieldReader.Widest | scripts/json-field.awk:223-228 | the length of the longest name looked for |
| FieldReader.Reader.Record | scripts/json-field.awk:243-304 | one record changes the variables as the automaton does on the record and its quote |
| FieldReader.Reader.Gather | scripts/json-field.awk:244-268 | a record inside a string goes on with it or closes it, oversize strings counted and dropped |
| FieldReader.Reader.Classify | scripts/json-field.awk:269-303 | a record outside strings binds a key or a value and opens the next string |
| FieldReader.Reader.End | scripts/json-field.awk:306-331 | a string still waiting is bound, an oversize one gives status 65, else the first requested field found is decoded |
| FieldReader.ReadField | scripts/json-field.awk:218-331 | for every input, well-formed or not, cutting at quotes and joining again answers exactly as the byte automaton does |
| FieldQuiet.NodeRun | scripts/json-field.awk:270-298 | scanning a value below or beside the looked-for member leaves depth, bindings and the keys above it as they were |
| FieldTree.ScanWalksTree | scripts/json-field.awk:243-331 | for every document with a top-level object and any names, scanning its text answers as a walk over its tree |
| FieldLookup.KeyIsName | scripts/json-field.awk:212-216 | the key that is stored is a looked-for name exactly when the decoded key is, oversize keys included |
| FieldLookup.SelectsLastBinding | scripts/json-field.awk:272-295 | a scan that succeeds selects the first requested field whose last binding in the last member of the name is a string exactly when no array holding a string stands there with a requested key left over |
| FieldLookup.ReadsLastBinding | scripts/json-field.awk:218-331 | when the last member of the name is no array and the status is 0, what is printed is that field decoded, or nothing; it is the character-by-character decoding exactly when nothing is skipped |
| FieldLookup.GivesUpWhenTooLarge | scripts/json-field.awk:286-322 | the status is 65 exactly when some member of the name has a requested string that is too large, or is an array with one while a requested key is left over; else it is 0 |
| FieldLookup.ArrayIsMistaken | scripts/json-field.awk:292-295 | an object and then an array under the same name: the lookup finds no field, yet the scanner exits with 0 and prints the string in the array |
| FieldProgram.ScanIsLookup | scripts/json-field.awk:218-331 | on the text of every document with a top-level object the answer is status 65, or the decoded string that a lookup in the tree chooses, arrays included |
| FieldProgram.ChosenIsToken | scripts/json-field.awk:142-199 | the string chosen is a token, and what is printed is its character-by-character decoding exactly when nothing is skipped |
| FieldProgram.ReadDocument | scripts/json-field.awk:218-331 | the program itself, given the text of a document, answers as the lookup in its tree |
| Identities.DecodeInverts | clients/node/creation-cancellation.mjs:28-35 | decoding inverts encoding for all byte strings, and the length of the spelling depends only on the number of bytes |
| Identities.OneSpelling | clients/node/compaction-progress.mjs:42-46 | the check accepts exactly the one spelling of each identity within the limits |
| Identities.LengthGuardIsIdle | clients/node/compaction-progress.mjs:42-46 | a limit on the text at least the encoded length of the byte limit changes no verdict |
| Identities.LengthGuardIsTight | clients/node/creation-cancellation.mjs:47-52 | any smaller limit refuses identities of the greatest length |
| Identities.LimitsInUse | clients/node/compaction-progress.mjs:16-18 | the limits 87382, 43 and 342 change no verdict given 65536, 32 and 256 bytes |
| Identities.OwnerIsCanonical | clients/node/checkpoint-owner.mjs:8-17 | an owner is decoded exactly from the canonical spelling of its identity and one of two kinds |
| Identities.CancellationRoundTrip | clients/node/creation-cancellation.mjs:15-52 | decoding a cancellation record yields a value exactly when encoding that value yields the record |
| IdentitySpelling.SpellingIsBits | clients/node/creation-cancellation.mjs:28-35 | at each place of a spelling is the symbol of six bits of the bytes, the last filled with zero bits |
| IdentitySpelling.SymbolIs | clients/node/creation-cancellation.mjs:47-52 | the symbol of each digit is the character of the alphabet of section 5 of RFC 4648 at its place |
| IdentitySpelling.RequestMeans | clients/node/creation-cancellation.mjs:42-45 | a request is named by 1 to 64 unreserved characters of section 2.3 of RFC 3986 |
| IdentitySpelling.KindsAre | clients/node/checkpoint-owner.mjs:8-17 | the two kinds of owner are run and compact |

## Left out

- Operating-system handling in `scripts/attended-pty.py` (terminals, processes, signals, polling, its error path) and the port and file handling in `scripts/attended-redact.exs`: reads are arbitrary chunks and outcomes are parameters.
- `extract_authority` and `check_no_keys` in `scripts/attended-pty.py`: each searches one file once, for an anchored section and for the keys, and keeps no state.
- SHA-256 of the canonical bytes, the UTF-8 decoding of the schema file and the socket: the model starts from text and ends at bytes.
- JavaScript property descriptors, prototypes and accessors: JSON trees have none.
- The depth of the JavaScript stack: recursion in the model is unbounded.
- `validateEvent`, `validateSnapshot` and `validateProgress`: not part of this model; a record is stored as it was delivered.
- An exception thrown while a line is parsed or validated: parsing is a total function in the model.
- The text of a frame: `DaemonConnection.Connection.Request` is told whether the frame would contain a newline.
- Aliasing of the arrays returned by `events`, `progress` and `notices`: they are copies and values here.
- Numeric comparison of two numeric-looking strings in awk: names are compared as strings of bytes.
- The processing of escapes in awk's `-v` assignments and the splitting of the field list at commas: the names are given.
- Implementations of awk that read characters and not bytes: the model is the byte reading.
- The message written to standard error when a field is too large.
- The quantity and stream-domain checks of `clients/node/compaction-progress.mjs` and the other Node payload decoders: each looks once at every field of one record, for its type, its range or its spelling, and returns a copy.
- Release, hygiene and archive scripts, workflow drivers and vector files, and the Elixir build files.

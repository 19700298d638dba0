# Verified model of an IEC 61850 client and server

A Dafny model of the logic behind an IEC 61850 / MMS library, and proofs about it. Five parts:

- **Encoding** (`Octets`, `Sequences`, `Ber`, `BerInteger`, `BerWriter`, `BerReader`, `BerErrors`, `Time`,
  `Data`, `DataProofs`, `DataReading`, `Utf8`, `DataCodec`):
  BER elements (ITU-T X.690 sections 8.1.2, 8.1.3 and 8.3) and the MMS `Data` values on top of them. `Ber`, `BerInteger` and
  `Data` say what the octets are; `BerWriter.Encoder` grows a length placeholder in place inside one buffer, `BerReader.Cursor`
  walks a buffer with absolute offsets, and both are proved to do exactly that. `DataReading`, `BerErrors` and `Utf8` say
  the same on octets alone: what each type is read from, what an error means, what a string is.
- **Control** (`ControlMessage`, `ControlForms`, `ControlWire`, `Control`, `ControlServer`, then `ControlOutcomes`, `ControlEffects`, `ControlCancel`,
  `ControlHook`, `ControlGrants`, `ControlLedger`, `ControlHonesty`, `ControlLicence`, `ControlTime`, `ControlTick`, `ControlDueOrder`, `ControlExamples`, `ControlWithdrawal`, `ControlStability`, `ControlAside`,
  `ControlClient`, `ControlSession`, and the `Device` behind them): the server's select-before-operate state machine of
  IEC 61850-7-2 section 20 and the client's `execute`. `Control` is one step of the machine as a function, and `Control.Run`
  any sequence of requests, ticks, lost associations, flushes and changes made elsewhere in the device.
  `ControlServer.Controls` is the machine as the server keeps it, field by field, each method proved equal to its step.
  The theorems are about every run; `ControlOutcomes` says what each request comes to by the numbers the model holds and the
  answers of the hook, every cause of every refusal included.
- **Logs** (`Log`, `LogRing`, `LogClient`): a bounded ring of numbered entries, its two queries, and the client that reads a whole log while
  the server goes on logging.
- **Paged services** (`NameList`, `Files`, `FileHandles`): name lists and file transfer, both ends, with other associations at work in between.
- **Calendar and references** (`Calendar`, `Reference`, `ReferenceGrammar`, `ReferenceSelection`).

Strings on the wire are their octets and floats their bit patterns; equality of control values follows floating-point equality
(`ControlMessage.SameValue`). Identifiers, sizes and clocks keep their machine width where it shows: identifiers of log entries and
file handles wrap, instants and waits saturate. The application hook may answer differently each time it is asked, so it is a
function of how often it was asked as well as of the event. The rest of the device changes the model's values in any way at any
time (`Control.Environment`). A control server's state carries a numbering of its requests and a `History` of grants, uses, attempts,
withdrawals and answers; no branch depends on either, they exist to state the properties.

## Where the code and its documentation differ

The model follows the code.

- src/server/control.rs:18-20 says an `Oper` with a value that was not selected is `ObjectNotSelected`; the code answers that exactly when the
  client holds no selection of its own, and `InconsistentParameters` for another value or number (`ControlEffects.FaultCauses`,
  `ControlEffects.WrongValueIsInconsistent`, and as a run `ControlExamples.OtherThanSelected`).
- src/server/control.rs:21-22 says expiry is `TimeLimitOver`; the code answers nobody: whatever a tick sends answers a command that has fallen
  due (`ControlTick.ExpiryIsSilent`).
- src/server/control.rs:115 says armed commands are kept in the order they fall due; they are kept, and run within one tick, in the order
  they were accepted (`ControlTick.TickInAcceptanceOrder`), which can be against their due order (`ControlExamples.AgainstDueOrder`) and is in it exactly when the due
  commands of the queue stand in it (`ControlTick.TickInDueOrderExactly`).
- src/common/time.rs:111-117 orders `EntryTime` by time of day before date: the last millisecond of a day comes after the first of the next
  (`Time.OrderIsNotChronological`), so time ranges of a log query are chronological only under the condition of
  `Time.OrderIsChronologicalExactly`. The model uses that order.
- src/client/control.rs:168-173 promises the real outcome. It is told exactly when the client and the object agree on whether a termination
  follows, or the client wrongly expects none and is let through, or wrongly expects one and is refused
  (`ControlClient.VerdictIsRightExactly`): one that wrongly expects none is told of success even when refused, and one that wrongly expects
  one reports a failure although its command ran (`ControlClient.MismatchedVerdict`).
- src/server/log.rs:87-89 promises a client whose resume entry is no longer held everything after the moment it stopped. It gets what is
  later in the order of the previous item, and so the first page of all that is held exactly when every entry of that page is later, and
  one of the rest if there are more (`LogClient.FallbackExactly`); an entry logged just after midnight is missed by a client that
  stopped just before (`LogClient.MissedAfterMidnight`).
- src/server/acsi.rs:1319-1335: with a chunk size of zero every non-empty file arrives empty and without an error (`Files.FileArrives`).

## Model

| member | source | states |
|---|---|---|
| `Ber.ReadTagOfTagOctets` | src/ber/writer.rs:216-235 | every class, form and 32-bit number is read back from the identifier octets written for it, whatever follows |
| `Ber.ReadTagCanonical` | src/ber/reader.rs:218-261 | every accepted identifier is exactly the octets the writer writes for the decoded tag |
| `Ber.ReadLengthOfLengthOctets` | src/ber/writer.rs:246-258 | every length below 2^32 is read back from its octets |
| `Ber.LengthOctetsMinimal` | src/ber/reader.rs:262-293 | no accepted form of a length is shorter than the one written |
| `Ber.ReadElementOfElement` | src/ber/reader.rs:218-295 | an element written is read back with its tag, contents and place, whatever follows |
| `Ber.ReadElementFaithful` | src/ber/reader.rs:218-295 | an accepted element's value is the buffer at its value offset, its length is its total length, and writing it again is never longer |
| `BerErrors.TruncatedExactly` | src/ber/reader.rs:218-295 | an element is truncated exactly when it is not read as it is but some continuation of it is, or its identifier is cut off where none can go on; every other error is final |
| `BerErrors.ElementFinal` | src/ber/reader.rs:218-295 | what is read of a buffer, and every error but a truncation, stays so whatever follows |
| `BerErrors.ErrorsPointInside` | src/ber/reader.rs:218-295 | an error points into the buffer or at its end |
| `BerErrors.LengthErrorsExactly` | src/ber/reader.rs:262-293 | a length is indefinite exactly when its first octet is 80, and bad exactly when that counts more than four octets |
| `DataReading.LengthFormsExactly` | src/ber/reader.rs:262-293 | the accepted forms of a length are one octet below 128, or a count of one to four octets and those octets, and nothing else |
| `DataReading.IdentifierIs` | src/ber/writer.rs:216-235 | class, form and number stand in the first identifier octet, a number past 30 in base 128 after it |
| `BerInteger.IntegerExactAndMinimal` | src/ber/writer.rs:101-108 | every i64 reads back equal, and no accepted contents of that value are shorter |
| `BerInteger.UnsignedExactAndMinimal` | src/ber/writer.rs:112-132 | every u64 reads back equal through the strict and the lenient reader, and no shorter contents decode to it through the strict one |
| `BerInteger.LenientCost` | src/ber/reader.rs:83-94 | whatever the lenient reader accepts is rewritten with at most one octet more |
| `BerInteger.FixedMinReads` | src/ber/writer.rs:142-163 | at its positive width or any wider one up to eight octets every u64 reads back through the lenient reader, and through the strict one exactly when it is below 2^63 |
| `BerInteger.WidthIsLeast` | src/ber/writer.rs:266-277 | an octet less than that width would set the top bit or lose some of the value |
| `BerWriter.EncodeLengthInto` | src/ber/writer.rs:246-258 | the loop over the bytes of the length puts the minimal length octets into the array, or fails past 32 bits |
| `BerWriter.UnsignedWidth` | src/ber/writer.rs:266-277 | the loop finds the least width, at least the one asked for, that keeps the top bit clear or the value whole |
| `BerWriter.SplitGroups` | src/ber/writer.rs:216-235 | the loop over seven-bit groups yields the base-128 form of every 32-bit number within five groups |
| `BerWriter.GrowInPlace` | src/ber/writer.rs:76-98 | moving contents right inside the buffer and overwriting the placeholder inserts the length octets and changes nothing else |
| `BerWriter.Encoder.WriteTag` | src/ber/writer.rs:216-235 | appends the identifier octets and nothing else |
| `BerWriter.Encoder.WriteLength` | src/ber/writer.rs:237-244 | appends the minimal length octets, or fails |
| `BerWriter.Encoder.Primitive` | src/ber/writer.rs:68-73 | appends one whole element; earlier octets are untouched |
| `BerWriter.Encoder.CloseConstructed` | src/ber/writer.rs:76-98 | growing the placeholder in place leaves the old contents, the minimal length and everything appended since, for any nesting |
| `BerWriter.Encoder.Integer` | src/ber/writer.rs:101-109 | appends the element of the minimal contents of an i64 |
| `BerWriter.Encoder.Unsigned` | src/ber/writer.rs:112-132 | appends the element of the minimal contents of a u64 |
| `BerWriter.Encoder.UnsignedFixed` | src/ber/writer.rs:157-164 | appends exactly the width asked for, or fails |
| `BerWriter.Encoder.UnsignedFixedMin` | src/ber/writer.rs:142-150 | appends every u64 at a width the lenient reader reads back, and the strict one exactly below 2^63 |
| `BerWriter.Encoder.BitString` | src/ber/writer.rs:172-181 | appends the element, and refuses unused bits that cannot be |
| `BerReader.Cursor.NextTag` | src/ber/reader.rs:218-261 | the group loop reads exactly the tag at the position and moves past it |
| `BerReader.Cursor.NextLength` | src/ber/reader.rs:262-293 | the length loop reads exactly the definite length at the position |
| `BerReader.Cursor.NextInner` | src/ber/reader.rs:218-295 | reads exactly the element at the position with absolute offsets, and moves past it |
| `BerReader.Cursor.Next` | src/ber/reader.rs:297-309 | one element, or the end; after an error the cursor is at the end, so iteration ends |
| `BerReader.Children` | src/ber/reader.rs:24-26 | a cursor over the contents, offsets counted from the outermost buffer |
| `BerReader.IntegerI64` | src/ber/reader.rs:34-45 | the accumulator loop is the strict signed reader |
| `BerReader.UnsignedU64` | src/ber/reader.rs:60-80 | the strict unsigned reader: positive, at most nine octets |
| `BerReader.UnsignedLenientU64` | src/ber/reader.rs:83-94 | the lenient unsigned reader: up to eight octets, no sign |
| `BerReader.ElementsTile` | src/ber/reader.rs:297-309 | siblings lie end to end by their total lengths, without gap or overlap, up to the first error |
| `BerReader.ElementsInPlace` | src/ber/reader.rs:19-26 | every sibling's value is the outermost buffer at its value offset |
| `BerReader.OffsetsFaithful` | src/ber/reader.rs:19-26 | the same for an element reached through any chain of children, at every depth |
| `BerReader.Drain` | src/ber/reader.rs:297-309 | iterating a cursor ends on every input and yields exactly the siblings and the first error |
| `Time.UtcTimeRoundTrip` | src/common/time.rs:89-101 | a timestamp reads back equal exactly when its fraction has 24 bits and its accuracy 5 |
| `Time.NanosWithinOneUnit` | src/common/time.rs:72-86 | nanoseconds through a timestamp lose less than one unit of its fraction, and past the last second of 32 bits they are that second's |
| `Time.EntryTimeOctets` | src/common/time.rs:131-140 | six octets carry every entry time |
| `Time.EntryTimeMillis` | src/common/time.rs:145-161 | milliseconds survive exactly in range, saturate outside it, and always come out well formed |
| `Calendar.EpochIs1984` | src/common/time.rs:145-161 | the epoch of entry times is the first of January 1984 |
| `Time.OrderIsChronologicalExactly` | src/common/time.rs:111-117 | the derived order agrees with the order of time exactly when no earlier time of day goes with a later date |
| `DataProofs.ScalarRoundTrip` | src/proto/data.rs:180-205 | every well-formed scalar reads back from its element |
| `DataProofs.RoundTripExactLimits` | src/proto/data.rs:331-345 | encoding then decoding any list of well-formed values gives the list exactly when it fits the limits, and a limit error otherwise |
| `DataProofs.ReencodingIsAFixedPoint` | src/proto/data.rs:331-345 | what the liberal decoder accepts can be encoded, in at most twice the room, and decodes to itself |
| `DataReading.BooleanReads` | src/ber/reader.rs:102-107 | under 83 and any accepted length one octet is read, and any but zero is true |
| `DataReading.IntegerReads` | src/ber/reader.rs:34-45 | under 85 one to eight octets are read as two's complement, redundant ones included, and nothing else is |
| `DataReading.UnsignedReads` | src/ber/reader.rs:83-94 | under 86 one to eight octets of any top bit, or nine with a leading zero, are read as their unsigned value, and nothing else is |
| `DataReading.FloatReads` | src/proto/data.rs:180-205 | under 87 exactly an exponent width of 8 or 11 and four or eight octets are read |
| `DataReading.BitStringReads` | src/proto/data.rs:180-205 | under 84 a count of at most seven unused bits, none without an octet, and the octets |
| `DataReading.StringsRead` | src/proto/data.rs:180-205 | under 89 and 8C any octets are read, under 8A those below 128, under 90 UTF-8, each within the length limit |
| `DataReading.TimestampReads` | src/common/time.rs:95-101 | under 91 exactly eight octets are read: seconds, fraction, three flags, accuracy, each where it stands |
| `DataReading.EntryTimeLayout` | src/common/time.rs:131-140 | milliseconds of the day in four octets, days in two |
| `DataReading.OthersRead` | src/proto/data.rs:180-205 | a primitive of any other number is kept as it is |
| `DataReading.WrittenUnder` | src/proto/data.rs:483-534 | the identifier octet each type is written under |
| `DataReading.BooleanWritten` | src/proto/data.rs:483-534 | a boolean is written as 1 or 0 |
| `Utf8.Utf8Exactly` | src/ber/reader.rs:118-129 | the strings accepted are exactly the encodings of Unicode scalar values |
| `DataCodec.Encode` | src/proto/data.rs:483-534 | writing through the mutable encoder, nested containers included, appends exactly the pure encoding, or fails exactly when there is none |
| `DataCodec.EncodeAll` | src/proto/data.rs:536-542 | the same for a list |
| `DataCodec.CollectDepth` | src/proto/data.rs:331-340 | the collecting loop is the recursive reader, errors and limits included |
| `DataCodec.ToOwnedDepth` | src/proto/data.rs:220-260 | copying one view checks depth, member count and lengths as the recursive reader does |
| `DataCodec.Decode` | src/proto/data.rs:343-345 | decoding a buffer |
| `ControlMessage.RequestRoundTrip` | src/proto/mms/control.rs:195-262 | every request survives its `Oper` structure with and without `operTm`, and its `Cancel` structure but for the checks |
| `ControlForms.FormReads` | src/proto/mms/control.rs:218-262 | every form of a control structure is read, with and without time, number and checks, in any integer and string type of the originator |
| `ControlForms.OnlyFormsRead` | src/proto/mms/control.rs:218-262 | and nothing else is read as one |
| `ControlForms.WrittenForms` | src/proto/mms/control.rs:195-217 | which of the forms are written |
| `ControlForms.FloatsEqualAsNumbers` | src/server/control.rs:336-339 | two 32-bit control values are equal exactly when both are numbers and the same number |
| `ControlForms.DoublesEqualAsNumbers` | src/server/control.rs:336-339 | two 64-bit control values likewise |
| `ControlForms.ValuesEqual` | src/server/control.rs:336-339 | other control values are equal when they are the same, arrays and structures member by member |
| `ControlWire.RequestArrivesExactly` | src/proto/mms/control.rs:195-262 | a request with a well-formed value and canonical times survives structure, octets and decoding exactly when it fits the receiver's limits, and so does a cancel but for the checks |
| `ControlServer.SplitExactly` | src/server/control.rs:230-233 | a reference is a service attribute of an object exactly when it is the object, `$` and one of the four names |
| `ControlServer.ApplyTo` | src/server/control.rs:519-531 | a command carried out is two writes, status and time, each made or dropped |
| `ControlServer.Controls.Select` | src/server/control.rs:240-259 | a bare select is the select step; granted answers the object, refused answers nothing |
| `ControlServer.Controls.Write` | src/server/control.rs:267-325 | a control write is the write step: state, answer and error codes |
| `ControlServer.Controls.Operate` | src/server/control.rs:327-372 | an `Oper` is the operate step, checks in the code's order |
| `ControlServer.Controls.Cancel` | src/server/control.rs:300-322 | a `Cancel` is the cancel step: it disarms before it decides |
| `ControlServer.Controls.SelectWithValue` | src/server/control.rs:284-299 | an `SBOw` is the select-with-value step |
| `ControlServer.Controls.Refuse` | src/server/control.rs:383-400 | a refusal records its cause, owes a negative answer, and says "accepted" only for an enhanced `Oper` |
| `ControlServer.Controls.RunTimed` | src/server/control.rs:197-217 | a due command asks the behaviour and the hook again, at that moment |
| `ControlServer.Controls.OnTimeout` | src/server/control.rs:189-218 | the loop over the due commands is the tick: expire, then run them one after another |
| `ControlServer.Controls.NextTimeout` | src/server/control.rs:222-224 | the earliest expiry or due time, and none only when nothing waits |
| `ControlServer.Controls.OnAssociationClosed` | src/server/control.rs:179-185 | the association's selections and armed commands go, nobody else's |
| `ControlServer.Controls.TakePending` | src/server/control.rs:173-175 | what is sent is exactly what was pending, in order |
| `ControlServer.Controls.TakeLastCause` | src/server/control.rs:168-170 | the cause is handed over once and cleared |
| `ControlServer.Controls.SetSboTimeoutMs` | src/server/control.rs:160-162 | changes how long later selections hold, and nothing else |
| `ControlOutcomes.AddressesExactly` | src/server/control.rs:499-531 | which texts are objects: a device, a node, the constraint and a path |
| `ControlOutcomes.BehaviourByNumber` | src/server/control.rs:440-494 | the number at `Beh`, else at `Mod`, else none: 2, 4 and 5 admit nothing, 3 exactly a test, any other exactly what is none |
| `ControlOutcomes.ModelByNumber` | src/server/control.rs:499-517 | the number at `ctlModel` is the control model, and anything but 0 to 4 is none |
| `ControlOutcomes.OperateOutcome` | src/server/control.rs:267-372 | an `Oper`, whole, by the stored numbers and the hook's own answer: refused for the first of the causes 8, 1, 18, 26 or the hook's, recorded, told and nothing else; or its selection gone and it armed for exactly the wait in place of others of its client's, or status and time written and a positive answer given |
| `ControlOutcomes.SelectWithValueOutcome` | src/server/control.rs:267-299 | an `SBOw`, whole: refused for the first of 8, 1, 19 (another's selection not yet expired) or the hook's, or granted |
| `ControlOutcomes.SelectOutcome` | src/server/control.rs:240-259 | a read of `SBO`, whole; another client's selection stands in its way until it expires |
| `ControlOutcomes.CancelOutcome` | src/server/control.rs:300-322 | a `Cancel`, whole, whatever the behaviour: done exactly when the hook agrees and the client holds the object or has a command armed on it; then it does neither, and every other selection and command is as it was |
| `ControlOutcomes.DueOutcome` | src/server/control.rs:195-217 | a due command, whole: refused by the numbers or the hook of that moment it is told so under any model, otherwise status and its own time are written, and only enhanced security is told |
| `ControlOutcomes.UnreadableOutcome` | src/server/control.rs:267-269 | a write without a control model is refused with 3, one that is no request with 11, and nothing happens |
| `ControlOutcomes.SwitchedOffTakesNothing` | src/server/control.rs:440-494 | a node whose number is 2, 4 or 5 takes no `Oper`, no `SBOw` and no `SBO` |
| `ControlOutcomes.TimeoutSetHolds` | src/server/control.rs:160-162 | a timeout set is exactly how long the next selection granted holds |
| `ControlOutcomes.OtherSteps` | src/server/control.rs:160-175 | a cause handed over is gone, what is flushed is sent in order, and neither does anything else |
| `ControlCancel.CancelEndsTheGrant` | src/server/control.rs:300-322 | in every run, after an accepted `Cancel` its client does not hold the object, and every later `Oper` of its there under a model that needs a select uses a selection granted after that cancel |
| `ControlCancel.ClosedLeavesNothing` | src/server/control.rs:179-185 | when an association ends none of its selections and armed commands is left and everybody else's are as they were |
| `ControlCancel.CloseEndsTheGrants` | src/server/control.rs:179-185 | in every run nothing let through for an association after its end uses a selection from before |
| `ControlHook.HookRefusalStops` | src/server/control.rs:406-411 | a write the hook answers with a cause selects, arms, runs and changes nothing |
| `ControlHook.RefusingHookRunsNothing` | src/server/control.rs:406-411 | behind a hook that refuses everything no run selects, arms, tries or changes anything |
| `ControlEffects.LetThroughExactly` | src/server/control.rs:267-351 | an `Oper` is let through if and only if the model, the behaviour with the `Test` flag, a live selection of this client for this value and number, and the hook all allow it, after everything due by now; and what is let through is that request |
| `ControlEffects.FaultCauses` | src/server/control.rs:331-345 | the cause is `ObjectNotSelected` exactly without the client's own selection, `InconsistentParameters` exactly when its selection is for another value or number, and there is no third |
| `ControlEffects.WrongValueIsInconsistent` | src/server/control.rs:327-345 | operating another value than the client selected is answered `InconsistentParameters` and runs nothing |
| `ControlEffects.RunsNowOrLater` | src/server/control.rs:352-372 | let through with `operTm` still ahead, a command is armed for exactly that long and runs nothing; otherwise it runs once, now |
| `ControlEffects.SelectGrantedExactly` | src/server/control.rs:240-259 | a read of `SBO` is granted if and only if the model is select-before-operate with normal security, nobody else holds the object, its node is on and the hook agrees; the selection is this client's for any value, other selections stay, and ticks leave it until exactly the configured time is over |
| `ControlEffects.SelectWithValueGrantedExactly` | src/server/control.rs:267-299 | an `SBOw` is granted if and only if the model is select-before-operate with enhanced security, the value reads as a request, the behaviour admits it, nobody else holds the object and the hook agrees, after everything due by now; the selection is this client's for this value and number, for exactly the configured time |
| `ControlEffects.ApplyChangesTheStatus` | src/server/control.rs:519-531 | the value becomes the object's status when it fits, stamped, and nothing else in the model changes |
| `ControlEffects.ModelSurvivesApply` | src/server/control.rs:499-531 | no command changes any object's control model |
| `ControlLedger.LedgerBalances` | src/server/control.rs:179-400 | in every run each accepted enhanced command is answered once, or still armed, or withdrawn, exactly one of the three; nobody is answered twice |
| `ControlLedger.OwedExactly` | src/server/control.rs:267-400 | what is owed is exactly the `Oper` writes answered "accepted" on enhanced-security objects |
| `ControlHonesty.TerminationsTellTheTruth` | src/server/control.rs:189-218 | in every run a positive answer's command was applied exactly once, a negative one's never, and neither is left armed |
| `ControlLicence.OneShotAuthorisedOperate` | src/server/control.rs:240-372 | in every run each command tried, applied or armed under a model that needs a select rests on an earlier grant of its own: same client, object, value and number as that very command, unexpired, not cancelled, never used twice; and every command is one let through, with the due instant its request asked for |
| `ControlGrants.GrantsBalance` | src/server/control.rs:160-404 | in every run each grant ever made is held by exactly the client, object, value and number it was made for, or used by exactly one command, or ended, and exactly one of the three |
| `ControlTime.CommandsRunOnceWhenAllowed` | src/server/control.rs:189-218 | in every run a command is tried at most once, never before the instant its `operTm` meant when it was let through, never while armed or after withdrawal, and applied only past the behaviour and the hook of that moment |
| `ControlWithdrawal.WithdrawnNeverRuns` | src/server/control.rs:302-322 | a withdrawn command is never tried, whatever happens afterwards |
| `ControlWithdrawal.CancelledNeverRuns` | src/server/control.rs:300-322 | after a `Cancel` write answered "done" in any run, nothing its client had armed on the object is ever tried |
| `ControlWithdrawal.ClosedNeverRuns` | src/server/control.rs:179-185 | after the end of an association in any run nothing it had armed is ever tried |
| `ControlWithdrawal.ReplacedNeverRuns` | src/server/control.rs:355-365 | after an `Oper` write that is armed in any run, nothing its client had armed on the object before is ever tried |
| `ControlTick.TickTriesTheDue` | src/server/control.rs:195-217 | a tick tries exactly the commands that are due, once each, in the order of the queue, each against what the earlier ones left |
| `ControlTick.TickInDueOrderExactly` | src/server/control.rs:195-217 | what a tick tries is in the order in which it fell due exactly when the due commands of the queue stand in that order |
| `ControlTick.TickInAcceptanceOrder` | src/server/control.rs:115-116 | in every run the commands of one tick are tried in the order in which they were accepted |
| `ControlDueOrder.LaterDueRunsFirst` | src/server/control.rs:352-365 | two clients arm an object, the first for later: one tick after both are due runs the first first |
| `ControlExamples.AgainstDueOrder` | src/server/control.rs:115-116 | there is a run that tries two commands against their due order |
| `ControlExamples.OtherThanSelected` | src/server/control.rs:18-20 | there is a run in which a client selects a value, operates another and is answered `InconsistentParameters` |
| `ControlTick.NextTimeoutIsLater` | src/server/control.rs:189-224 | after a tick the next timeout is none or later than now |
| `ControlTick.ExpiryIsSilent` | src/server/control.rs:189-217 | every tick drops exactly the expired selections, and every answer it gives is to a command that has fallen due |
| `ControlStability.SelectionLostExactly` | src/server/control.rs:267-404 | before expiry another association's step changes a selection exactly when it is an accepted `Oper` on an object then served with direct control |
| `ControlStability.SelectionIsStable` | src/server/control.rs:189-404 | whatever sequence of steps others take, barring that one, a selection keeps its owner, value and number until it expires |
| `ControlStability.StableWhileSelectNeeded` | src/server/control.rs:189-404 | in every run in which the model needs a select, nothing others do before the expiry removes or changes a selection |
| `ControlAside.OthersStandAside` | src/server/control.rs:179-400 | nothing the others, the clock or the device do runs a client's command or tells it anything under a number it is waiting for |
| `ControlAside.OwnOperWrite` | src/server/control.rs:267-400 | a client's own `Oper` that passes the guard runs once and, if enhanced, says so; one that does not never runs and says why, with the cause the server records |
| `ControlAside.OwnSelectWrite` | src/server/control.rs:267-299 | a client's own `SBOw` runs nothing; accepted it tells nothing, refused it tells the cause the server records |
| `ControlClient.TakeFirstTakes` | src/client/mod.rs:715-731 | taking removes the first termination for the number and nothing else, and finds none only when there is none |
| `ControlClient.AwaitTakes` | src/client/mod.rs:692-731 | waiting takes the oldest answer for the number, and finds one whenever the server sends one in time |
| `ControlClient.VerdictIsTheServersAct` | src/client/control.rs:168-201 | for a client that agrees with the object on the security, `execute` says success exactly when the server applied this request on this object, once, failure exactly when it never did and nothing is left to run, for every model and every interleaving with others; a positive answer returned is this command's, and so is the cause of a rejection: the one this `Oper`, or the select before it, was refused with, reported whenever it is delivered in time |
| `ControlClient.VerdictIsRightExactly` | src/client/control.rs:168-201 | whatever models the two take, the verdict is right if and only if the client never writes its `Oper`, or they agree on the security, or it takes the object for normal and is let through, or takes it for enhanced and is refused |
| `ControlClient.OperateVerdict` | src/client/control.rs:180-200 | the command runs once exactly when its guard passes; the client is told of success exactly then if they agree, always if it wrongly expects no termination, never if it wrongly expects one; a cause it reports is the one this command was refused with, and it reports that one unless it wrongly expects no termination or is not told in time |
| `ControlClient.PrepareTold` | src/client/control.rs:276-303 | a select with value reported as rejected for a cause was refused for it, and one refused is reported so when told in time |
| `ControlClient.PrepareSelects` | src/client/control.rs:175-183 | the client goes on exactly when the select its model asks for is granted, and the server then holds the object for it, for exactly the value and number of the command when the select goes with a value |
| `ControlClient.ElsewhereRuns` | src/client/mod.rs:692-731 | what others do while the client waits is any run of the server at all |
| `ControlClient.ResolvedAgrees` | src/client/control.rs:244-251 | a client that is told no model acts on the one served, and so agrees with it |
| `ControlClient.MismatchedVerdict` | src/client/control.rs:185-200 | a normal client of an enhanced object is always told of success; an enhanced client of a normal object waits in vain exactly when its command ran |
| `ControlClient.CancelIsForGood` | src/client/control.rs:223-231 | in every run, after a cancel the client is told is done nothing it still had armed on the object is tried, and every later command of its there that needs a select uses one granted since |
| `ControlSession.Client.NextCtlNum` | src/client/mod.rs:817-820 | the running number, wrapping after 255 |
| `ControlSession.Client.TakeTermination` | src/client/mod.rs:700-731 | the search-or-read loop over the queue is the wait |
| `ControlSession.Operation.RequestReadsBack` | src/client/control.rs:264-274 | what is written as `SBOw` and `Oper` is read back as the caller's value with the operation's own time, originator, test flag and checks, its number and its stamp |
| `ControlSession.Operation.Resolve` | src/client/control.rs:244-251 | the model stated, published or assumed, remembered |
| `ControlSession.Operation.TakeCtlNum` | src/client/control.rs:305-312 | the number stated, or taken once and kept |
| `ControlSession.Operation.WriteControl` | src/client/control.rs:276-303 | a write, and the reason of a refusal from what arrives, or the access error |
| `ControlSession.Operation.Cancel` | src/client/control.rs:228-231 | writes that record without its checks, under the operation's number |
| `ControlSession.Operation.Execute` | src/client/control.rs:168-201 | the client's sequence of calls is `ControlClient.Execute` for exactly that record under the resolved model, and its result is the truth about that record: carried out once, or never, in every run and interleaving in which it is told in time and agrees on the security |
| `Log.MemoryLog.Append` | src/server/log.rs:138-148 | the entry gets the next number, the oldest goes when the ring is full, the bounds reported are the ends of what is held, the numbers stay consecutive, starting again at 0 past the last, and rise exactly until the last one is used |
| `LogRing.HoldsTheLastExactly` | src/server/log.rs:138-148 | over any appends and purges from an empty log, held are exactly the last entries logged since the last purge, as many as there is room for, in order and numbered one after another |
| `LogRing.ByTimeExactly` | src/server/log.rs:150-154 | a query by time gives entries inside both bounds, in order, at most as many as were asked for, none left out before the last, and more exactly when there are |
| `Log.MemoryLog.Purge` | src/server/log.rs:169-173 | a purged log is empty and keeps its numbering |
| `Log.Logs.Append` | src/server/log.rs:310-322 | after an append every control block of that log publishes the ends of what it holds in every attribute that takes them, and nothing else in the model changes |
| `LogClient.ReadLog` | src/client/log.rs:184-200 | the client's loop, as it runs |
| `LogClient.NeverRepeats` | src/client/log.rs:184-200 | over any interleaving of appends, evictions and purges, on any log, what one reading collects is a subsequence of everything ever logged: whole entries, in order, none twice |
| `LogClient.IdentifiersRiseExactly` | src/server/log.rs:140-141 | identifiers given out one after another increase exactly as long as numbering does not start again |
| `LogClient.ReadingRises` | src/client/log.rs:184-200 | the identifiers one reading collects strictly increase as long as numbering has not started again |
| `LogClient.NothingSkippedExactly` | src/client/log.rs:184-200 | a reading from the first possible time that ends gives exactly what was logged from the oldest entry held at the first request to the newest at the last, if and only if each request goes on where the one before stopped: its resume entry is held, or was the last to go and its time does for it |
| `LogClient.NothingSkippedUnhurried` | src/client/log.rs:184-200 | so it does on a log that is not cleared and gains fewer entries between two requests than a page holds |
| `LogClient.WrappedIdentifiersFall` | src/server/log.rs:140-141 | past the last identifier numbering starts again, and the identifiers of a reading across that point do not increase |
| `LogClient.ReadsExactly` | src/client/log.rs:184-200 | on an unchanging log the client gets exactly the log, or the exact error, and decides which by the first whole number of pages that reaches the limit |
| `LogClient.AfterEntryLater` | src/server/log.rs:156-163 | a query after an entry once logged, held or not, gives only entries logged after it, in order |
| `LogClient.FallbackExactly` | src/server/log.rs:156-163 | after an entry no longer held the answer is the first page of all that is held exactly when that page's entries are later than the time given, and one of the rest if there are more |
| `LogClient.MissedAfterMidnight` | src/server/log.rs:87-90 | a resume entry of the last millisecond of a day, no longer held, misses an entry of the next morning |
| `NameList.FromPage` | src/server/acsi.rs:1392-1412 | the server's loop is the page function |
| `NameList.PageFits` | src/server/acsi.rs:1392-1412 | a page of two or more names fits the budget, is as long as the budget allows, and more follows exactly when the list goes on |
| `NameList.PageOctetsFit` | src/server/acsi.rs:1392-1412 | for names below 128 characters the octets of a page of two or more are within the budget, and one name more is not |
| `NameList.CostIsItsOctets` | src/server/acsi.rs:1403-1404 | a name costs the octets it is written in exactly when it is shorter than 128 |
| `NameList.ResumesStrictlyAfter` | src/server/acsi.rs:1392-1399 | resuming after a name gives what stands after it without a gap, and after an unknown one nothing: no request starts the list again |
| `NameList.NameList` | src/client/mod.rs:744-763 | the client's loop, with its request count |
| `NameList.RequestsAreBounded` | src/client/mod.rs:744-763 | against any server at all the client makes at most ceiling plus one requests |
| `NameList.PagingIsTheWholeList` | src/client/mod.rs:744-763 | for distinct names and any budget the client gets exactly the list, or an error only past its ceiling, never a part of it |
| `Files.FileServer.FileOpen` | src/server/acsi.rs:1304-1319 | a handle within the association's quota, position clamped, identifiers wrapping |
| `Files.FileServer.FileRead` | src/server/acsi.rs:1321-1335 | one chunk from where the handle stands, another association's handle being none |
| `Files.FileServer.FileClose` | src/server/acsi.rs:1337-1341 | the association's handle goes, and an unknown one is reported |
| `Files.FileServer.OnAssociationClosed` | src/server/acsi.rs:741-743 | an association that ends leaves no handle and takes nobody else's |
| `FileHandles.QuotaInEveryRun` | src/server/acsi.rs:1304-1307 | whatever all the associations do, none ever holds more handles than its quota |
| `FileHandles.OpenHandlesDiffer` | src/server/acsi.rs:1312-1313 | in every run that gives out at most 2^31 - 1 handles no two open ones have one identifier |
| `FileHandles.IdentifiersDiffer` | src/server/acsi.rs:1312-1313 | identifiers fewer than 2^31 - 1 apart are different, and those that many apart the same |
| `FileHandles.ReadGives` | src/server/acsi.rs:1321-1335 | a read gives the octets from where its handle stands, a chunk at most, and says that more follow exactly when the file goes on |
| `FileHandles.OpenedReads` | src/server/acsi.rs:1304-1335 | a handle opened at a position gives the file from there, or nothing past its end |
| `FileHandles.CloseTakes` | src/server/acsi.rs:1337-1341 | closing is reported done exactly when the association holds such a handle, and takes nothing else |
| `Files.ReadOpenFile` | src/client/files.rs:114-132 | the reading loop, as it runs |
| `Files.NoHandleLeftBehind` | src/client/files.rs:70-85 | on every outcome, whatever others do and even if the files change, the association holds no more handles than before, and the same ones when its handle was its own |
| `Files.FileArrives` | src/client/files.rs:70-85 | from an unchanging store a granted file arrives exactly, if and only if it is empty or chunks are not; a longer one than allowed is refused with its size |
| `Calendar.FormulasAreTheCalendar` | src/common/time.rs:188-202 | for every day number the formulas give the date counted one day at a time from 1970-01-01, always a valid one |
| `Calendar.UnixTimeSplits` | src/common/time.rs:188-202 | a Unix time is its day and its time of day, each part in range |
| `Reference.CountNamed` | src/common/reference.rs:236-245 | the counting loop stops at the first indexed component |
| `Reference.CollectSelection` | src/common/reference.rs:253-265 | the selecting loop yields exactly what is below the name |
| `Reference.MmsItem` | src/common/reference.rs:305-315 | the item built by appending is the node, the constraint and the named part |
| `ReferenceGrammar.ParsesExactly` | src/common/reference.rs:180-217 | a text is a reference exactly when it is a device, a slash and a node, then a dotted path without a dollar, or a dollar, a constraint and a path, with names and legal components; every other text is refused |
| `ReferenceGrammar.ComponentsExactly` | src/common/reference.rs:341-358 | a component is a name, or a name and a number below 2^32 in parentheses, and is split just so |
| `Reference.DisplayParsesBack` | src/common/reference.rs:318-338 | parsing the printed form of a parsed reference gives the same device, node, constraint and components |
| `Reference.MmsNameParsesBack` | src/common/reference.rs:293-315 | the MMS name of a reference reads back as its named part under the constraint asked for, with nothing selected |
| `ReferenceSelection.NothingIsLost` | src/common/reference.rs:219-265 | path and selection together are all components, split at the first indexed one |
| `ReferenceSelection.CanonicalExactly` | src/common/reference.rs:351-358 | an index is its own decimal form exactly when it has no sign and no spare zero |
| `ReferenceSelection.PathAndSelectionAreTheText` | src/common/reference.rs:149-158 | a dotted reference's node, dotted path and printed selection are its text exactly when its indices are canonical |

## Left out

- Sockets, threads, locks and the per-connection loop: message exchange is calls, queues and arbitrary interleavings.
- XML loading, GOOSE and sampled values, sessions and associations below MMS, reports, setting groups and service tracking.
- Trigger evaluation in `Logs::commit` (src/server/log.rs:272-307): `rcb::reason_for` is not part of this model.
- `DirectoryStore` and its sandbox: a file store is a map from paths to octets, and files are shorter than 2^32 octets.
- File and name-list paging share one loop shape; `file_directory` (src/client/files.rs:34-62) would repeat the name-list proofs.
- Buffer lengths and offsets are unbounded: saturation at the end of the address space does not arise.
- Control PDUs are values (`Control.Pdu`), not octets: a termination is addressed, numbered and delivered, its encoding is not modelled.
- The client's bound on queued unsolicited items: delivery to the queue is lossless.
- Names of the MMS layer in front of controls (access checks, tracking objects): a request reaches `Controls` as it was sent.
- BerWriter.Encoder.CloseConstructed: the closure of `constructed` is modelled by what is appended between opening and closing; a failing closure leaves what it appended.
- ControlClient.VerdictIsRightExactly: about commands without `operTm`, under a control number nothing outstanding bears, with delivery before the deadline.
- The client's separate `select`, `select_with_value` and `operate` (src/client/control.rs:203-222) are the parts of `execute`.
- ControlSession.Operation.Execute: the host clock and the timing of each call are a parameter (`ControlClient.Schedule`).
- ControlServer.Controls.Write: the trace fields `serial` and `history` are kept beside the source's fields and are no part of it.
- LogClient.NeverRepeats: `logged`, everything ever logged, is kept beside the log to state it and is no part of it; a log holds fewer than 2^64 entries.
- LogClient.ReadLog: entries reach the client as values; the `ReasonCode` variable that carries the reason on the wire is not modelled.
- NameList.NameList: every failed call is one error; a name's length is its number of characters, names being ASCII.
- Files.NoHandleLeftBehind: a call that fails on the way (a lost connection) is outside it; the server then drops the handles itself.
- Calendar.FormulasAreTheCalendar: stated over every natural day number; the source's 32-bit seconds use the first 49711 of them.

# RNP: streaming armor, key signatures, key store and keybox

A model of the parts of RNP, an OpenPGP library, that keep state between calls or keep several data
structures in step, with proofs of what they promise. `dafny verify dfyconfig.toml` checks all of it.

- **ASCII armor** (`Base64`, `ArmorText`, `ArmorEncoder`, `ArmorLineLength`, `ArmorLengthChange`, `ArmorReference`,
  `ArmorDecoder`, `ArmorRuns`, `ArmorMeaning`, `ArmorClosing`, `ArmorRoundTrip`, `ArmorFailures`; sections 6.1 to 6.5 of
  RFC 4880). Writer and reader are classes with the buffers and counters of the source. Both are proved against pure functions, for any split of
  the data into calls. The writer's state is a value `Pen`, and `Next` is one write at any line length with the
  32-bit arithmetic of the code. The reader's state is a value `View`; one read is the relation `Step`, and runs are
  sequences of steps. CRC-24 is an arbitrary function of the bytes fed to it.
- **One key's signatures** (`Signatures`, `KeyLayout`, `KeyMerge`, `KeyRecord`, `KeyPlaces`, `KeyRun`). The same ids
  are kept in a map, a global order, a direct-key list and a list per userid. `KeyLayout.Good` says when they are in
  step; `KeyPlaces` says, list by list, where each operation puts a signature.
- **Validity and expiration** (`KeyValidity`, `KeyRefresh`; sections 5.2.3.6 and 5.2.3.19 of RFC 4880). The rules as
  functions of the signatures, and the methods that apply them in place. Whether a signature is good is a parameter.
- **One key, several views** (`KeyViews`). The signatures in order that the rules work on, and the entry that the
  keybox writer gets, are functions of the layout that the store holds.
- **The key store** (`KeyStore`). List, fingerprint index and two-way links between primary keys and subkeys.
- **The keybox format** (`Octets`, `Sequences`, `Destination`, `Kbx`, `KbxWriter`, `KbxRoundTrip`, `KbxOffsets`,
  `KbxRecords`). The cursor of the parser, the back-patching writer over a destination with a cache, the round trip
  through both, what the written offsets point at, and what each record belongs to. SHA-1 is an arbitrary function to 20 bytes.
- **Smaller codecs** (`Mpi`, `Subpacket`, `SubpacketRun`; sections 3.2 and 5.2.3.1 of RFC 4880). Canonical numbers, grip
  records, and signature subpackets with a cached serialization.

## Where the code does not meet the expected property

Each of these is proved with the exact condition.

- The armor writer stays inside its buffer for every sequence of writes exactly if its column is inside the line and
  the line length is a multiple of 4 (or the column is within one buffer of the end of the 32-bit range). For a new
  writer that means a multiple of 4, as a comment says. `armored_dst_set_line_length` accepts other lengths, and a
  shorter line at any time: then the column is or gets past the line length, and the 32-bit subtraction that follows
  wraps (`BufferExactFrom`, `ActsExact`, `OverrunAtOddLength`, `OverrunAfterShorterLine`). The data itself is kept
  whenever the writes fit.
- The armor reader loses bytes after a read that asks for exactly the bytes that are pending before the end of the
  data, because the position in `rest` is then not reset (`RunLossExact`, `RunFreshExact`, `ExactDrainLoses`).
- A bare base64 read that the pending bytes satisfy uses a CRC context that such a reader does not have. That is
  exactly when bytes are pending and no more are asked for (`Read`, `NoCrcContext`).
- At the end of bare base64 a table is indexed with a plain char. Taken as signed, it is read before its start exactly
  if the last byte of the 16 looked at that is no white space is 0x80 or more (`ReadAll`, `OutsideTheTable`).
- Bare base64 of an empty payload is refused by the reader.
- `add_sig`, `replace_sig` and `add_uid` keep the lists in step exactly for fresh ids.
- `validate_subkey` accepts any unexpired binding, while expiration and valid-till use the latest one. So a valid
  subkey can have a valid-till in the past; the `expired` mark can depend on the order of the signatures.
- `add_key` keeps the links in order exactly if a new subkey's recorded primary key is stored (`AddKey`,
  `MissingPrimary`).
- `remove_key` given a copy of a primary key keeps the links in order exactly if the copy lists every stored subkey
  that records the key (`RemoveKey`, `StaleCopy`).
- The keybox writer gives key records a fixed size of 28 bytes and 16-bit counts, so keys with fingerprints of
  another length than 20 bytes, or with more than 32768 records of a kind, are written but not read back.
- The userid offsets of a keybox are positions in the file exactly if nothing is in the cache of the destination when
  the key is written, because `writeb` leaves the cache out. They are right for memory; in a keybox written to a file
  those of the first key are 32 too small (`UidOffsetExact`, `FirstKeyIsOff`). Nothing that loads a keybox here uses
  them.
- `set_human_readable` does not clear the cached bytes of a notation subpacket; what is written after a run reads back
  exactly if the bit in the cache is the current one and the fields fit (`RunWrites`).

## Model

| member | source | states |
|---|---|---|
| `Base64.DecEnc` | src/librepgp/stream-armor.cpp:87-105 | the decoding table undoes the encoding table, for the low six bits of any index |
| `Base64.EncDec` | src/librepgp/stream-armor.cpp:87-105 | only the 64 characters of the encoding table have a value: encoding it gives the character back |
| `Base64.EncodeFormsAgree` | src/librepgp/stream-armor.cpp:989-996 | the 24-bit word of the line loop and the byte arithmetic of armored_encode3 give the same four characters |
| `Base64.QuantumRoundTrip` | src/librepgp/stream-armor.cpp:379-387 | decoding the four characters of any three bytes gives the three bytes |
| `Base64.DecodeEncode` | src/librepgp/stream-armor.cpp:909-916 | decoding undoes encoding for every string of whole groups, and every character written is a data character |
| `Base64.Rfc4880Examples` | src/librepgp/stream-armor.cpp:909-916 | the examples of section 6.5 of RFC 4880, with whole and padded last groups |
| `ArmorText.WrapLines` | src/librepgp/stream-armor.cpp:962-1002 | what wrapping means: full lines of exactly the line length, one shorter last line, and the characters unchanged when line ends are taken out |
| `ArmorText.LineAdds` | src/librepgp/stream-armor.cpp:976-1001 | encoding up to the end of the current line adds those characters, and a line end exactly when the line fills up |
| `ArmorText.CharsWrap` | src/librepgp/stream-armor.cpp:976-1001 | breaking into lines only adds line ends: without them the text is the characters |
| `ArmorEncoder.ArmoredDest.constructor` | src/librepgp/stream-armor.cpp:1074-1115 | a new writer has written nothing, with line length 76, or 256 and no line ends for bare base64 |
| `ArmorEncoder.ArmoredDest.SetLineLength` | src/librepgp/stream-armor.cpp:1123-1133 | accepts exactly 16 to 76, at any time; the writer stays sound at each of them, and before any input it stays in line |
| `ArmorEncoder.ArmoredDest.Write` | src/librepgp/stream-armor.cpp:918-1011 | at every line length: succeeds exactly if every turn of the line loop stays inside the buffer, and then the state is the specified next one and the text without line ends is the base64 of all input; a writer whose text is its input broken into lines of a multiple of 4 always succeeds and stays so, until the length is changed |
| `ArmorEncoder.ArmoredDest.FillTail` | src/librepgp/stream-armor.cpp:942-960 | completing the kept bytes adds one group, and a line end exactly if the column meets the unrounded line length |
| `ArmorEncoder.ArmoredDest.PutLines` | src/librepgp/stream-armor.cpp:963-1002 | the line loop adds the specified lines, and stops exactly where a turn would pass the end of the buffer |
| `ArmorEncoder.ArmoredDest.PutLine` | src/librepgp/stream-armor.cpp:963-1002 | one turn, with the 32-bit subtraction: input taken, column left and bytes used are the specified ones at every column; the text grows by their encoding |
| `ArmorEncoder.ArmoredDest.PickLine` | src/librepgp/stream-armor.cpp:976-986 | the amount of input and the column that one turn is specified to take and leave, past the end of the line too |
| `ArmorEncoder.ArmoredDest.EncodeLine` | src/librepgp/stream-armor.cpp:988-996 | the inner loop writes the encoding of its input in place and leaves the buffer before it alone |
| `ArmorEncoder.ArmoredDest.Finish` | src/librepgp/stream-armor.cpp:1013-1059 | the finished text is the text so far, the padded last group, then line end if needed, CRC line of all input and closing line; in line, it is the specified text of the input |
| `ArmorEncoder.ArmoredDest.AppendEol` | src/librepgp/stream-armor.cpp:880-889 | appends the line end the writer was set up with |
| `ArmorEncoder.NextChars` | src/librepgp/stream-armor.cpp:918-1011 | whatever the line length, one write adds the base64 characters of kept bytes and input, and line ends, and keeps what fills no group |
| `ArmorEncoder.NextSound` | src/librepgp/stream-armor.cpp:918-1011 | so the text without line ends stays the base64 of the whole input, at every line length and split |
| `ArmorEncoder.NextWraps` | src/librepgp/stream-armor.cpp:938-1010 | at multiples of 4 the next state depends on the concatenated input only: full lines, column, tail; no turn passes the end of the buffer |
| `ArmorEncoder.FirstWrite` | src/librepgp/stream-armor.cpp:963-1010 | the first write at any line length: lines of the length rounded down to a multiple of 4, and the bytes that fill no group kept |
| `ArmorEncoder.LinesStay` | src/librepgp/stream-armor.cpp:963-1002 | from a column inside the line, every turn stays inside the buffer |
| `ArmorLineLength.WriteFits` | src/librepgp/stream-armor.cpp:963-1002 | exactly when one write stays inside the buffer, from the state before it: too little input, a column inside the rounded line, or a first turn that happens to fit |
| `ArmorLineLength.PastTheLine` | src/librepgp/stream-armor.cpp:976-986 | with the column past the line the subtraction wraps and one turn takes all input: it fits exactly if its characters do |
| `ArmorLineLength.WriteAll` | src/librepgp/stream-armor.cpp:918-1011 | a sequence of writes succeeds exactly if each stays inside the buffer, and leaves the specified state; always at multiples of 4 |
| `ArmorLineLength.BytewiseAfter` | src/librepgp/stream-armor.cpp:955-959 | at a line length that is no multiple of 4, bytes written one by one never end a line, from any state: the column counts the characters, in 32 bits |
| `ArmorLineLength.OneByOne` | src/librepgp/stream-armor.cpp:955-959 | the writer itself, driven so: no line end in the text |
| `ArmorLineLength.SafeNext` | src/librepgp/stream-armor.cpp:938-1010 | from a safe column, which is one inside a line whose length is a multiple of 4, one write fits and leaves a safe column |
| `ArmorLineLength.BufferExactFrom` | src/librepgp/stream-armor.cpp:938-1010 | from any column the writer can be at, every sequence of writes stays inside the buffer if and only if the column is safe: inside a line whose length is a multiple of 4, or within one buffer of the end of the 32-bit range |
| `ArmorLineLength.BufferExact` | src/librepgp/stream-armor.cpp:963-1002 | of the accepted line lengths, exactly the multiples of 4 keep every sequence of writes to a new writer inside the buffer |
| `ArmorLineLength.MultiplesFit` | src/librepgp/stream-armor.cpp:938-1010 | at a multiple of 4, after any sequence of writes to a new writer, the state is that of the concatenated input |
| `ArmorLineLength.OverlongDoesNotFit` | src/librepgp/stream-armor.cpp:938-1010 | the failing writes from any column that is not safe: byte by byte until the column is past the line, if need be, then one of 12300 bytes |
| `ArmorLineLength.Overrun` | src/librepgp/stream-armor.cpp:918-1011 | the writer itself, in any state, passes the end of its buffer on those writes exactly if its column is not safe |
| `ArmorLineLength.OverrunAtOddLength` | src/librepgp/stream-armor.cpp:1123-1133 | a new writer set to any length that is no multiple of 4 |
| `ArmorLineLength.OverrunAfterShorterLine` | src/librepgp/stream-armor.cpp:1123-1133 | a new writer at 76 that has written 30 bytes and is then set to 16 |
| `ArmorLengthChange.ActsExact` | src/librepgp/stream-armor.cpp:918-1011 | after any run of writes and changes of the line length, every sequence of writes fits if and only if the run did and its last column is safe for its last length |
| `ArmorLengthChange.SteadyFits` | src/librepgp/stream-armor.cpp:918-1011 | a run in which each length is set at a column that is safe for it fits |
| `ArmorLengthChange.Perform` | src/librepgp/stream-armor.cpp:918-1011 | the writer itself, taken through such a run: succeeds exactly if it fits, and loses nothing |
| `ArmorReference.SkipChars` | src/librepgp/stream-armor.cpp:199-227 | what is left starts with no such character, and only such characters were skipped |
| `ArmorReference.TrailerReads` | src/librepgp/stream-armor.cpp:229-258 | white space, the closing line and blanks are read, and one line end if there is one; the rest is left |
| `ArmorReference.TrailerParts` | src/librepgp/stream-armor.cpp:229-258 | nothing else is accepted: a text whose closing line is read has these parts |
| `ArmorClosing.PaddingReads` | src/librepgp/stream-armor.cpp:107-134 | on the bytes of the next line: one or two equals signs alone are read as padding; a line of five characters, or a longer one that starts with five dashes, means no padding and stays unread; any other line is refused |
| `ArmorClosing.PaddingExact` | src/librepgp/stream-armor.cpp:107-134 | for every text: the padding is accepted if and only if the next line is one of these and ends within 63 bytes |
| `ArmorClosing.CrcReads` | src/librepgp/stream-armor.cpp:168-197 | a line that fits the buffer is read as the CRC line of given three bytes if and only if it is an equals sign and their four base64 characters; then it is read with its end |
| `ArmorClosing.Base64PaddingExact` | src/librepgp/stream-armor.cpp:136-166 | bare base64: the next 16 bytes are n equals signs, at most two, and then white space, if and only if n is reported |
| `ArmorClosing.DataEnds` | src/librepgp/stream-armor.cpp:347-364 | the data ends at an equals sign, in armored text also at a dash, in bare base64 also at the end of input; any other foreign character refuses the text |
| `ArmorReference.ParseBody` | src/librepgp/stream-armor.cpp:346-364 | data characters read ahead only extend the pending 6-bit values |
| `ArmorReference.ParseStop` | src/librepgp/stream-armor.cpp:347-364 | at the first character that is no data, the data ends or the text is refused |
| `ArmorReference.ParseQuads` | src/librepgp/stream-armor.cpp:368-387 | whole groups of pending values may be delivered at once or later, with the same result |
| `ArmorDecoder.Strip` | src/librepgp/stream-armor.cpp:343-366 | copies the 6-bit values of the longest run of data characters behind the pending ones, and says why it stopped |
| `ArmorDecoder.DecodeQuads` | src/librepgp/stream-armor.cpp:378-387 | writes the decoding of whole groups, in place, and nothing else |
| `ArmorDecoder.Deliver` | src/librepgp/stream-armor.cpp:368-391 | delivers whole groups until fewer than 3 bytes are wanted or fewer than 4 values are left; delivered and kept are the decoding of what was there |
| `ArmorDecoder.ArmorSkipChars` | src/librepgp/stream-armor.cpp:199-227 | the loop skips exactly the longest run of these characters at the front |
| `ArmorDecoder.ArmorReadTrailer` | src/librepgp/stream-armor.cpp:229-258 | the steps of the code read the closing line as those two lemmas describe it |
| `ArmorDecoder.Base64ReadPadding` | src/librepgp/stream-armor.cpp:136-166 | the loop finds the padding that the reference function describes, and uses the table outside its bounds exactly if the last byte of the 16 that is no white space is 0x80 or more |
| `ArmorDecoder.ReadEnd` | src/librepgp/stream-armor.cpp:409-430 | padding, CRC line and closing line are read in this order, as the lemmas on their bytes describe; a missing CRC line is no error; outside the table exactly for bare base64 with such a last byte |
| `ArmorDecoder.ArmoredSource.constructor` | src/librepgp/stream-armor.cpp:790-842 | a new reader has no pending bytes and has not seen the end |
| `ArmorDecoder.ArmoredSource.Round` | src/librepgp/stream-armor.cpp:334-431 | one turn: bytes delivered, then the decoding of kept values and unread text, is the decoding of what the turn started with; it fails only on text that has no decoding; how far it gets in the text, and how many values it keeps, is a function of the text |
| `ArmorDecoder.ArmoredSource.Refill` | src/librepgp/stream-armor.cpp:433-478 | rest takes whole groups and, at the end, the padded bytes; brest takes the remainder; neither overflows |
| `ArmorDecoder.ArmoredSource.Read` | src/librepgp/stream-armor.cpp:285-493 | every successful read is a step that conserves the bytes still to come, except those a stale position skips; a failed read means the text has no decoding; the missing CRC context is used exactly by a bare base64 read that the pending bytes satisfy; a CRC mismatch is reported exactly if there is a CRC line and it differs |
| `ArmorDecoder.StepServed` | src/librepgp/stream-armor.cpp:305-318 | a read served from rest alone is such a step, and leaves a stale position exactly if it takes all of rest |
| `ArmorDecoder.StepMore` | src/librepgp/stream-armor.cpp:433-493 | a read that needs input is such a step, with the bytes a stale position skips |
| `ArmorRuns.RunCounts` | src/librepgp/stream-armor.cpp:285-493 | over any run, the decoding at the start has as many bytes as were delivered, lost, and are still to come |
| `ArmorRuns.RunLossExact` | src/librepgp/stream-armor.cpp:305-324 | a run loses nothing if and only if no read before the end starts at a stale position and leaves bytes over, which is known from the state before each read |
| `ArmorRuns.RunFreshExact` | src/librepgp/stream-armor.cpp:305-324 | from a new reader, the position becomes stale exactly by a read of exactly the pending bytes before the end |
| `ArmorRuns.RunDelivers` | src/librepgp/stream-armor.cpp:285-493 | over any run of reads none of which drains the pending bytes exactly before the end, nothing is lost, repeated or reordered |
| `ArmorRuns.RunComplete` | src/librepgp/stream-armor.cpp:285-493 | such a run of reads of at least 3 bytes, ended by an empty one, has delivered the whole decoding |
| `ArmorRuns.RunCrc` | src/librepgp/stream-armor.cpp:260-283 | the CRC context has been given each delivered byte once and in order, from three places; at the end it covers the whole payload |
| `ArmorRuns.StaleReadLoses` | src/librepgp/stream-armor.cpp:478-489 | from a stale position, the read that reaches the end of a text longer than asked for always loses bytes |
| `ArmorMeaning.CharsMeaning` | src/librepgp/stream-armor.cpp:346-364 | line ends between the characters do not change what is decoded |
| `ArmorMeaning.CloseMeaning` | src/librepgp/stream-armor.cpp:409-430 | the closing part the writer writes reads back as its padding, its CRC and the closing line |
| `ArmorMeaning.ArmoredMeaning` | src/librepgp/stream-armor.cpp:1013-1059 | the decoding of the characters of any payload with line ends anywhere, the padded group and the closing lines is the payload, with the CRC that was written |
| `ArmorMeaning.WrappedMeaning` | src/librepgp/stream-armor.cpp:1013-1059 | so for the text of any payload broken into lines of any length |
| `ArmorClosing.PlainMeaning` | src/librepgp/stream-armor.cpp:107-134 | a text without a CRC line, with either line end, decodes to its payload and reports no CRC; only a closing line that does not fit 63 bytes is refused, and only directly behind whole groups |
| `ArmorClosing.ReadPlain` | src/librepgp/stream-armor.cpp:285-493 | the reader itself on such a text: delivers the payload and does not complain about a checksum |
| `ArmorMeaning.Base64Meaning` | src/librepgp/stream-armor.cpp:1033-1036 | bare base64 decodes to the payload for every payload but the empty one, which is refused |
| `ArmorRoundTrip.RunRoundTrip` | src/librepgp/stream-armor.cpp:285-493 | round trip for any sequence of read sizes of at least 3 without an exact drain: only prefixes of the payload are delivered, no read can fail, and the run ends with all of it |
| `ArmorRoundTrip.ReadOn` | src/librepgp/stream-armor.cpp:285-493 | a read that does not drain exactly delivers what comes next; an empty one means that all has been delivered |
| `ArmorRoundTrip.ReadAll` | src/librepgp/stream-armor.cpp:1176-1195 | the loop of rnp_dearmor_source returns the decoding of the text, or fails if there is none, uses the table outside its bounds exactly if the end of the text says so, and warns exactly on a wrong CRC |
| `ArmorRoundTrip.ArmorAll` | src/librepgp/stream-armor.cpp:1197-1213 | succeeds exactly if the writes fit; the text is the characters of their concatenation with line ends, and the closing lines; at multiples of 4 it depends on the concatenation only |
| `ArmorRoundTrip.Transfer` | src/librepgp/stream-armor.cpp:1176-1213 | armoring any sequence of writes at any accepted line length at which they fit, so at every multiple of 4, and dearmoring gives back the input, with no CRC mismatch |
| `ArmorRoundTrip.ReadSizes` | src/librepgp/stream-armor.cpp:285-493 | reads of any sizes from 3 up on a reader: a run of it, which stops exactly at an exact drain or an empty read |
| `ArmorRoundTrip.ArmorActs` | src/librepgp/stream-armor.cpp:918-1059 | the same for writes with changes of the line length between them |
| `ArmorRoundTrip.PlainActs` | src/librepgp/stream-armor.cpp:1123-1133 | a length set once and then only writes is the case of one length |
| `ArmorRoundTrip.Exchange` | src/librepgp/stream-armor.cpp:285-493 | the whole round trip, writer and reader: any writes and changes of the line length that fit, any read sizes from 3 up. Only the start of the input is ever delivered; all of it, with no mismatch, once a read brings nothing; and without an exact drain one read more than there are bytes is enough |
| `ArmorFailures.ExactDrainLoses` | src/librepgp/stream-armor.cpp:305-324 | a new reader, a text whose first block is all data, and reads of 3069, 3 and 3 bytes: part of the text is gone |
| `ArmorFailures.NoCrcContext` | src/librepgp/stream-armor.cpp:305-318 | a new reader and bare base64 of any payload over 3 bytes in one block: a read of 3 bytes succeeds and the next one uses the missing CRC context |
| `ArmorFailures.OutsideTheTable` | src/librepgp/stream-armor.cpp:136-166 | on any bare base64 text of one block the first read uses the table outside its bounds exactly if the end of the text says so |
| `ArmorFailures.HighTextIsBad` | src/librepgp/stream-armor.cpp:136-166 | the text "QQ==" and a byte 0x80 is one |
| `KeyLayout.AddSigGood` | src/lib/pgp-key.cpp:939-964 | adding a signature keeps map, order, direct and userid lists in step exactly when its id is new |
| `KeyPlaces.AddSigPlace` | src/lib/pgp-key.cpp:939-964 | the signature goes, not validated, to the front or the back of its owner; every other list and entry stays |
| `KeyLayout.AddSigsGood` | src/lib/pgp-key.cpp:1142-1152 | adding several keeps them in step exactly when none is present and none comes twice |
| `KeyLayout.ReplaceSigGood` | src/lib/pgp-key.cpp:912-937 | replacing keeps them in step exactly when the new id is the old one or not in use |
| `KeyPlaces.ReplaceSigPlace` | src/lib/pgp-key.cpp:912-937 | the new signature takes the place and the owner of the old one, not validated; nothing else changes |
| `KeyLayout.DropGood` | src/lib/pgp-key.cpp:966-1019 | deleting any set of ids keeps them in step |
| `KeyLayout.DropTwice` | src/lib/pgp-key.cpp:966-1019 | deleting in two steps is deleting the union, so order does not matter |
| `KeyLayout.DropEachIsDrop` | src/lib/pgp-key.cpp:990-1019 | bulk deletion leaves the same map and lists as deleting each id in turn |
| `KeyLayout.DropUidGood` | src/lib/pgp-key.cpp:1096-1125 | removing a userid removes exactly its signatures and renumbers the others, in step |
| `KeyPlaces.DropUidPlace` | src/lib/pgp-key.cpp:1096-1125 | exactly that userid and the signatures it owns go; the others keep contents, verdict and owner, and userids behind it move down by one |
| `KeyLayout.AddUidGood` | src/lib/pgp-key.cpp:1142-1152 | a new userid without signatures keeps the lists in step |
| `KeyMerge.UidIdx` | src/lib/pgp-key.cpp:1060-1069 | the first userid with this packet, or the number of userids |
| `KeyMerge.DropUndoesAdd` | src/lib/pgp-key.cpp:939-988 | del_sig undoes add_sig of a new signature, at either end of either list |
| `KeyMerge.MergeUnion` | src/lib/pgp-key.cpp:2863-2914 | after a merge, signature ids and userid packets are the union of both keys; old entries keep their owners and relative order; where the new ones go is in the next rows |
| `KeyPlaces.MergeLists` | src/lib/pgp-key.cpp:2875-2900 | each list gains, behind its old ids and in the order of the source, the ids the key did not have: the direct list those of the direct list, the first userid with a packet those of the userids with that packet |
| `KeyPlaces.MergeOwners` | src/lib/pgp-key.cpp:2875-2900 | a signature new to the key has the contents of the source and no verdict; it is direct exactly if it was direct in the source, else it is on the first userid with the packet of its owner in the source |
| `KeyPlaces.MergeOrder` | src/lib/pgp-key.cpp:2884-2891 | new userids stand behind the old ones, each packet once, in the order in which the source first has them; of several userids with one packet only the first gains anything |
| `KeyPlaces.MergeSubkeyLists` | src/lib/pgp-key.cpp:2928-2934 | merging a subkey: its direct list gains the new direct signatures of the source in order, and nothing else changes |
| `KeyMerge.MergeNothing` | src/lib/pgp-key.cpp:2863-2914 | a source that brings nothing new changes nothing |
| `KeyMerge.MergeIdempotent` | src/lib/pgp-key.cpp:2863-2914 | a second merge of the same source changes nothing |
| `KeyMerge.MergeCount` | src/lib/pgp-key.cpp:1592-1599 | the packet count never falls, and stays the same exactly if the source brings no new userid packet or signature id |
| `KeyMerge.MergeSubkeyCount` | src/lib/pgp-key.cpp:2916-2947 | the same for a subkey, whose direct signatures are merged |
| `KeyRecord.KeyRecord.constructor` | src/lib/pgp-key.cpp:767-790 | a new key is empty and in order |
| `KeyRecord.KeyRecord.AddSig` | src/lib/pgp-key.cpp:939-964 | the in-place insertion into map, order and owner list is the specified one, at the front or back of the owner |
| `KeyRecord.KeyRecord.ReplaceSig` | src/lib/pgp-key.cpp:912-937 | the new id takes the place of the old one everywhere; fails exactly if there is no such id |
| `KeyRecord.KeyRecord.DelSig` | src/lib/pgp-key.cpp:966-988 | removes the id from map, order and owner list, and nothing else; true exactly if it was there |
| `KeyRecord.KeyRecord.DelSigs` | src/lib/pgp-key.cpp:990-1019 | rebuilding every list from the global order equals deleting each id; returns the number of distinct ids that were present |
| `KeyRecord.KeyRecord.AddUid` | src/lib/pgp-key.cpp:1142-1152 | appends the userid with its signatures in order |
| `KeyPlaces.AddUidPlace` | src/lib/pgp-key.cpp:1142-1152 | the new userid stands last and lists its signatures in the order given, each with its entry and not validated |
| `KeyRecord.KeyRecord.DelUid` | src/lib/pgp-key.cpp:1096-1125 | one pass over the order removes the userid, its signatures, and shifts the owners behind it; fails exactly if out of range |
| `KeyRecord.KeyRecord.Merge` | src/lib/pgp-key.cpp:2863-2914 | the nested loops of merge compute the specified merge, whose lists and owners the rows above describe |
| `KeyRecord.KeyRecord.GetUidIdx` | src/lib/pgp-key.cpp:1060-1069 | the loop finds the first userid with this packet |
| `KeyRecord.KeyRecord.Write` | src/lib/pgp-key.cpp:1759-1781 | emits key, direct signatures, and each userid with its signatures; exactly as many packets as rawpkt_count says |
| `KeyPlaces.PacketsGroup` | src/lib/pgp-key.cpp:1759-1781 | the packets written can be taken apart again: first the key packet, then the direct signatures, then each userid with the signatures directly behind it, all in the order of the lists |
| `KeyRun.AfterGood` | src/lib/pgp-key.cpp:912-1152 | one rule for all operations: the lists stay in step exactly when the ids are fresh |
| `KeyRun.RunGood` | src/lib/pgp-key.cpp:912-1152 | every run of add, replace, delete, bulk delete, userid and merge operations with fresh ids keeps the lists in step, and the packets written equal the count |
| `KeyValidity.ScanLatest` | src/lib/pgp-key.cpp:1861-1933 | returns the last of the signatures with maximal creation time among those wanted, or none if there are none |
| `KeyValidity.LatestUnique` | src/lib/pgp-key.cpp:1861-1933 | that description determines the result |
| `KeyValidity.FindSelfsig` | src/lib/pgp-key.cpp:1861-1909 | the self-call terminates and computes latest_selfsig |
| `KeyValidity.PrimaryUidNotOverridden` | src/lib/pgp-key.cpp:1901-1908 | a primary-userid signature is returned only if no valid self-certification of that userid is strictly newer, and withheld only if one is |
| `KeyValidity.LeastExpiration` | src/lib/pgp-key.cpp:2734-2750 | the least non-zero expiration of the deciding signatures |
| `KeyValidity.ExpiryAgreement` | src/lib/pgp-key.cpp:2311-2362 | validity and expiration, computed from separately picked signatures, agree at every time: valid exactly if not past the expiration, valid implies now is within valid-till, expired implies it is past; valid-till is the expiration itself |
| `KeyValidity.DecidingExists` | src/lib/pgp-key.cpp:2333-2351 | there is a deciding signature exactly if there is a valid direct-key or userid self-signature |
| `KeyValidity.WantedExactly` | src/lib/pgp-key.cpp:1874-1889 | field by field, which signatures count as direct-key, primary, any or given userid self-signature, and which as binding |
| `KeyValidity.DecidingExact` | src/lib/pgp-key.cpp:2333-2351 | a signature decides if and only if it is the latest direct-key one, the latest that claims a primary userid and is not overridden by a newer certification of it, or, without both, the latest certification |
| `KeyValidity.PrimaryValidExactly` | src/lib/pgp-key.cpp:2311-2382 | valid exactly if not revoked and either some signature decides and none of those expires the key, or none decides and a subkey vouches for it; expired exactly if not revoked and a deciding one expires it |
| `KeyValidity.UnboundTill` | src/lib/pgp-key.cpp:1466-1490 | a key that nothing vouches for is neither valid nor expired and has valid-till 0 |
| `KeyValidity.RevokedTill` | src/lib/pgp-key.cpp:1466-1490 | a revoked key is not valid; its valid-till is the lesser of revocation and expiration time, and 0 exactly if it was compromised or revoked no later than made |
| `KeyValidity.SubkeyValidExactly` | src/lib/pgp-key.cpp:2384-2420 | a subkey is valid exactly if its primary key is, some valid binding does not expire it, and no valid revocation exists |
| `KeyValidity.SubkeyExpiredExactly` | src/lib/pgp-key.cpp:2384-2420 | marked expired exactly if not valid, not revoked, under a valid or expired primary key, with an expired binding before every unexpired one |
| `KeyValidity.SubkeyExpirationIs` | src/lib/pgp-key.cpp:2816-2820 | the expiration of a subkey is that of its latest binding |
| `KeyValidity.SubkeyOrderFree` | src/lib/pgp-key.cpp:2384-2420 | this does not depend on the order of the signatures |
| `KeyValidity.SubkeyOrderExact` | src/lib/pgp-key.cpp:2397-2419 | validity and expired mark together are independent of the order exactly unless the primary key is expired, the subkey is not revoked, and it has both an expired and an unexpired valid binding |
| `KeyValidity.ExpiredMarkNeedsOrder` | src/lib/pgp-key.cpp:2397-2419 | two signatures for which the expired mark depends on their order |
| `KeyValidity.SubkeyTillExact` | src/lib/pgp-key.cpp:2816-2847 | a valid subkey has a valid-till not in the past exactly if its latest valid binding has not expired |
| `KeyValidity.ValidSubkeyPastTill` | src/lib/pgp-key.cpp:2816-2847 | a valid subkey whose latest binding has expired |
| `KeyRefresh.CheckedTwice` | src/lib/pgp-key.cpp:2241-2273 | checking self-signatures again changes nothing |
| `KeyRefresh.FirstRevocation` | src/lib/pgp-key.cpp:2692-2722 | a revocation is kept exactly if there is a valid one |
| `KeyRefresh.FirstRevocationIs` | src/lib/pgp-key.cpp:2692-2722 | it is the first valid one in order |
| `KeyRefresh.Key.CheckSigs` | src/lib/pgp-key.cpp:2241-2273 | kind by kind: an own direct-key signature, certification, revocation of a certification or of the key without a verdict gets that of the check, and so does a binding or revocation of a subkey; every other signature and every verdict that was there stays |
| `KeyRefresh.Key.DecideByOwnSigs` | src/lib/pgp-key.cpp:2333-2351 | the chain of branches finds the key expired exactly if one of the deciding signatures expires it, and certified exactly if there is one and none does |
| `KeyRefresh.Key.ValidatePrimary` | src/lib/pgp-key.cpp:2311-2382 | the flags set are the specified validity, with the fallback to a subkey whose latest binding is good |
| `KeyRefresh.Key.AskSubkeys` | src/lib/pgp-key.cpp:2364-2381 | vouched for exactly if some stored subkey has a latest valid binding that does not expire it |
| `KeyRefresh.Key.RefreshPrimary` | src/lib/pgp-key.cpp:2724-2807 | expiration, revocation and valid-till are the specified ones |
| `KeyRefresh.Key.RefreshExpiration` | src/lib/pgp-key.cpp:2733-2750 | the branches compute the least non-zero expiration of the deciding signatures |
| `KeyRefresh.Key.RefreshRevocation` | src/lib/pgp-key.cpp:2692-2722 | keeps the first valid revocation, and none exactly if no revocation is valid |
| `KeyRefresh.Key.ScanBindings` | src/lib/pgp-key.cpp:2397-2416 | one pass that a revocation ends finds whether there is one, a binding that does not expire the subkey, and one that does before it |
| `KeyRefresh.Key.ValidateSubkey` | src/lib/pgp-key.cpp:2384-2420 | the flags set are the specified subkey validity |
| `KeyRefresh.Key.RefreshSubkey` | src/lib/pgp-key.cpp:2809-2849 | expiration is that of the latest binding; valid-till is never later than that of the primary key |
| `KeyRefresh.Revalidate` | src/lib/pgp-key.cpp:2437-2465 | after revalidate: every signature of the key and of its stored subkeys has the verdict described at CheckSigs; an own key revocation without a verdict that the check finds valid leaves the key revoked and not usable; the revocation kept is the first valid one and bounds valid-till; an unrevoked key with a self-signature is valid exactly if not past its expiration, in agreement with valid-till; every stored subkey is valid exactly by the rule above and is not trusted longer than the key |
| `KeyViews.GoodInOrder` | src/lib/pgp-key.cpp:864-886 | with the lists in step, each signature in order is on the key or on a userid the key has, and stands under its own id |
| `KeyViews.RestoredGood` | src/lib/pgp-key.cpp:2241-2273 | verdicts on the signatures can be put back into the map: the lists stay in step and the signatures in order are the new ones |
| `KeyViews.CheckedGood` | src/lib/pgp-key.cpp:2241-2273 | so checking the signatures of a key keeps its lists in step |
| `KeyViews.RunAgreement` | src/lib/pgp-key.cpp:2311-2362 | after any run of changes under fresh ids: a deciding signature exists exactly with a valid self-signature, and then validity, expiration and valid-till agree |
| `KeyViews.StoredRoundTrip` | src/librekey/key_store_kbx.cpp:503-677 | a stored key whose subkeys are stored, written to a keybox and read back: key records with the fingerprints of key and listed subkeys in order; for each signature of the layout in order its key expiration, first the key, then subkey by subkey; as many records as packets; and the bytes of key and subkeys as keyblock |
| `KeyStore.StoredKey.LinkSubkey` | src/lib/pgp-key.cpp:1546-1563 | records the primary key in the subkey, and lists the subkey once |
| `KeyStore.StoredKey.RemoveSubkeyFp` | src/lib/pgp-key.cpp:1571-1578 | removes the first occurrence from the list, in place |
| `KeyStore.UnlistedIs` | src/lib/pgp-key.cpp:1571-1578 | without the first occurrence, or unchanged if there is none |
| `KeyStore.MatchesFromFirst` | src/lib/key-provider.cpp:277-288 | the matches from a position on are those from the first match on |
| `KeyStore.FirstMatchHas` | src/lib/key-provider.cpp:123-187 | what is found has the fingerprint, key id or grip asked for, and nothing before it has; the zero key id asks for any key |
| `KeyStore.KeyStore.constructor` | src/librekey/rnp_key_store.cpp:710-721 | a new store is empty and in order |
| `KeyStore.KeyStore.Clear` | src/librekey/rnp_key_store.cpp:205-211 | an empty store is in order |
| `KeyStore.KeyStore.GetKey` | src/librekey/rnp_key_store.cpp:602-620 | the index finds a key exactly if the list holds one with this fingerprint |
| `KeyStore.KeyStore.FindKey` | src/librekey/rnp_key_store.cpp:657-687 | the result is the first match of a linear scan, from the start or behind the given key |
| `KeyStore.KeyStore.Enumerate` | src/librekey/rnp_key_store.cpp:657-687 | searching on from each result visits every matching key once, in list order, and stops |
| `KeyStore.KeyStore.Provide` | src/lib/key-provider.cpp:277-288 | returns the first match of the wanted secrecy, or none if there is none |
| `KeyStore.KeyStore.GetSigner` | src/librekey/rnp_key_store.cpp:689-708 | the first key of the list that has the issuer fingerprint, or without one the issuer key id; null exactly if there is none |
| `KeyStore.KeyStore.PrimaryKey` | src/librekey/rnp_key_store.cpp:631-655 | with a recorded fingerprint, the stored primary key that has it; without one, null if and only if no binding has an issuer whose first match in the list is a primary key, else that key for the first such binding in order |
| `KeyStore.KeyStore.TargetIs` | src/librekey/rnp_key_store.cpp:269-275 | the key a merged subkey ends up with: the one it records, else the one its own bindings lead to, else the one the fingerprint or bindings of the source lead to |
| `KeyStore.KeyStore.RefreshSubkeyGrips` | src/librekey/rnp_key_store.cpp:219-264 | exactly the orphan subkeys with a binding that names the new key are linked to it, in list order |
| `KeyStore.AdoptedIs` | src/librekey/rnp_key_store.cpp:227-249 | a key records the new primary key exactly if it did, or is a subkey that recorded none and holds a binding with that issuer fingerprint or key id |
| `KeyStore.AdoptingHas` | src/librekey/rnp_key_store.cpp:227-261 | the new primary key lists, behind its own list, exactly these subkeys |
| `KeyStore.KeyStore.AddNewSubkey` | src/librekey/rnp_key_store.cpp:266-310 | the new subkey is linked to its primary key, which lists it; the links are in order exactly if a recorded primary key is stored |
| `KeyStore.KeyStore.MergeIntoSubkey` | src/librekey/rnp_key_store.cpp:266-292 | signatures merge; the subkey moves to its target primary key and off the list of any other one the source records; links stay in order |
| `KeyStore.KeyStore.AddNewPrimary` | src/librekey/rnp_key_store.cpp:347-356 | the new key is last in the list, in the index, and has adopted its orphans |
| `KeyStore.KeyStore.MergeIntoPrimary` | src/librekey/rnp_key_store.cpp:342-346 | signatures, userids and subkey lists merge; links stay in order |
| `KeyStore.KeyStore.AddKey` | src/librekey/rnp_key_store.cpp:328-387 | whole effect on list, index, signatures and every link; a new subkey records the stored primary key that its fingerprint or bindings lead to, which lists it, and what it recorded itself if they lead to none; index and kinds always stay in order, the links exactly if the key is not a new subkey whose recorded primary key is missing |
| `KeyStore.KeyStore.RemoveKey` | src/librekey/rnp_key_store.cpp:566-600 | given a stored key or any copy: the list without the key, or without it and the subkeys the copy lists; otherwise these lose their primary key; a subkey leaves its list; links stay in order exactly if the copy of a primary key lists every stored subkey that records it |
| `KeyStore.KeyStore.OwnCovers` | src/librekey/rnp_key_store.cpp:566-600 | a stored key itself lists them all, so removing it keeps the links in order |
| `KeyStore.StaleCopy` | src/librekey/rnp_key_store.cpp:566-600 | a copy taken before its subkey was added: removing by it leaves the subkey with a primary key that is gone |
| `KeyStore.KeyStore.AddTsSubkey` | src/librekey/key_store_pgp.cpp:40-56 | a subkey of a stored primary key then records one: this one if it is new, the old one if it recorded one; no other record changes |
| `KeyStore.KeyStore.AddTsKey` | src/librekey/key_store_pgp.cpp:58-97 | the key is stored exactly if all its subkeys could be made; then each subkey is on the list of the stored primary key it records: this one if it is new, and the old one if it recorded one; in both cases the store is in order |
| `KeyStore.MissingPrimary` | src/librekey/rnp_key_store.cpp:266-310 | a new store given a subkey that records a primary key: stored and indexed, without the key it records |
| `KeyStore.KeyStore.ImportKey` | src/librekey/rnp_key_store.cpp:433-466 | unchanged exactly if the key was present and the source brought no new userid packet or signature id; new exactly if it was not present; secret exactly if it was, or the source is and its secret part is imported |
| `KeyStore.KeyStore.Run` | src/librekey/rnp_key_store.cpp:205-600 | every run of adding a key, loading a key or subkey, removing and clearing keeps index, kinds and links in order; it stops only at a key that may not be added |
| `Kbx.TableEndIs` | src/librekey/key_store_kbx.cpp:189-193 | a table of n records fits exactly if n times the record size does |
| `Kbx.ReadKeys` | src/librekey/key_store_kbx.cpp:189-210 | the cursor reads exactly the records by position and never passes the end of the image |
| `Kbx.ReadUids` | src/librekey/key_store_kbx.cpp:247-271 | the same for userid records |
| `Kbx.ReadSigs` | src/librekey/key_store_kbx.cpp:292-306 | the same for signature records |
| `Kbx.ParsePgp` | src/librekey/key_store_kbx.cpp:129-333 | accepts exactly the images whose parts lie inside them, and returns the fields at their positions |
| `Kbx.AcceptedExactly` | src/librekey/key_store_kbx.cpp:129-333 | the accepted images, written out with every table at its computed place: version 1, keyblock inside, 1 to 32768 keys of at least 28 bytes, at most 32768 userids of at least 12 and signatures of at least 4, and 16 bytes behind them |
| `Kbx.KeyRecordAt` | src/librekey/key_store_kbx.cpp:189-208 | key record i is at its place in the image |
| `Kbx.UidRecordAt` | src/librekey/key_store_kbx.cpp:247-269 | userid record i is at its place in the image |
| `Kbx.SigRecordAt` | src/librekey/key_store_kbx.cpp:292-303 | signature record i is at its place in the image |
| `Kbx.ParseHeader` | src/librekey/key_store_kbx.cpp:91-127 | accepts exactly 32-byte images of version 1 with the magic bytes |
| `Kbx.ParseBlob` | src/librekey/key_store_kbx.cpp:337-382 | accepts exactly images whose length field is their length and whose body is acceptable for their type |
| `Kbx.KeyblockInside` | src/librekey/key_store_kbx.cpp:158-167 | an accepted keyblock lies inside its image |
| `Kbx.LoadKbx` | src/librekey/key_store_kbx.cpp:384-451 | the loop terminates; it succeeds exactly if the file splits into acceptable blobs, and returns them in order |
| `Kbx.LoadConserves` | src/librekey/key_store_kbx.cpp:396-443 | on success the images in order and at most 4 bytes are the input, and every keyblock lies inside its image |
| `KbxWriter.Memory.PutKeyRows` | src/librekey/key_store_kbx.cpp:532-554 | key records in order, each with the offset of its key id; fails exactly if a subkey is missing or space runs out |
| `KbxWriter.Memory.PutStrings` | src/librekey/key_store_kbx.cpp:615-629 | userid strings one after the other, each record patched with its offset and length, everything between unchanged |
| `KbxWriter.Memory.PutKeyblock` | src/librekey/key_store_kbx.cpp:631-656 | the packets of key and subkeys, with offset and length patched into the fixed part |
| `KbxWriter.WritePgp` | src/librekey/key_store_kbx.cpp:503-677 | the bytes are the image specified without any patching, which holds what BlobHolds describes; it fails exactly if a listed subkey is missing or the image is larger than the limit |
| `KbxWriter.WriteHeader` | src/librekey/key_store_kbx.cpp:484-501 | 32 bytes, with the creation time of the loaded header if there is one |
| `KbxWriter.WriteX509` | src/librekey/key_store_kbx.cpp:679-691 | the images of the X.509 blobs, in order |
| `KbxWriter.WriteKbx` | src/librekey/key_store_kbx.cpp:694-724 | header, one blob per primary key in list order, X.509 blobs; fails exactly if one of the keys cannot be written; userid offsets use the count of the destination, which leaves out its cache |
| `KbxRoundTrip.BlobRoundTrip` | src/librekey/key_store_kbx.cpp:503-677 | a written blob states its own length and its keyblock slice is the packets of key and subkeys; the parser returns the specified records, described one by one in the next rows, exactly if fingerprints have 20 bytes and no count exceeds 32768 |
| `KbxRecords.BlobHolds` | src/librekey/key_store_kbx.cpp:503-677 | the parsed blob, record by record: the fingerprints of the key and then of its subkeys; the lengths of the userids; the expirations of the signatures, first those of the key in order, then record j of subkey s behind those of the subkeys before it; the time; and the packets in the same order |
| `KbxRecords.OwnSigRecordIs` | src/librekey/key_store_kbx.cpp:586-590 | signature record i is that of signature i of the key |
| `KbxRecords.SubSigRecordIs` | src/librekey/key_store_kbx.cpp:591-594 | signature record j of subkey s stands behind those of the key and of the subkeys before it |
| `KbxRoundTrip.LongFingerprint` | src/librekey/key_store_kbx.cpp:527-537 | a key with a 32-byte fingerprint is written and does not read back |
| `KbxRoundTrip.LoadsNext` | src/librekey/key_store_kbx.cpp:396-443 | loading splits a file exactly where a written blob ends |
| `KbxRoundTrip.FileRoundTrip` | src/librekey/key_store_kbx.cpp:694-724 | loading a written file gives the header with the same creation time, one blob per primary key with right records, and every X.509 blob unchanged, exactly if each key fits the format and its packets are accepted |
| `KbxRecords.FileHolds` | src/librekey/key_store_kbx.cpp:694-724 | in the loaded file the blob of each primary key comes in its turn behind the header and holds all that BlobHolds says |
| `KbxRoundTrip.ReloadKeeps` | src/librekey/key_store_kbx.cpp:384-451 | load, write, load: creation time and X.509 blobs survive, whatever the keys became |
| `Destination.Output.Write` | src/librepgp/stream-common.cpp:622-653 | everything written is what was passed on and then what is in the cache; the counters are the specified ones |
| `Destination.Output.Flush` | src/librepgp/stream-common.cpp:671-679 | everything has been passed on and is counted |
| `KbxOffsets.KeyIdPoints` | src/librekey/key_store_kbx.cpp:533-546 | the last 8 bytes of each fingerprint stand in the blob at the key id offset of its record |
| `KbxOffsets.UidRecordPoints` | src/librekey/key_store_kbx.cpp:615-629 | each userid stands in the blob at its place; its record has the length, and that place after the counted bytes |
| `KbxOffsets.UidOffsetExact` | src/librekey/key_store_kbx.cpp:618-622 | in the file each userid stands at a place, and the offset in its record is that place, in 32 bits, if and only if the cache was empty when its key was written; so always without a cache |
| `KbxOffsets.FirstKeyIsOff` | src/librekey/key_store_kbx.cpp:618-622 | with a cache the 32 bytes of the header are in it when the first primary key is written |
| `Mpi.SameNumber` | src/librekey/key_store_g10.cpp:323-347 | two byte strings are the same number exactly if they differ in leading zeros at most |
| `Mpi.AddMpi` | src/librekey/key_store_g10.cpp:323-347 | the value written is the number without leading zeros, with one zero byte before a set high bit |
| `Mpi.SignedIs` | src/librekey/key_store_g10.cpp:323-347 | the one string for the number that has no set high bit in front and no byte to spare |
| `Mpi.ReadMpi` | src/librekey/key_store_g10.cpp:288-302 | reading back a written number gives it without leading zeros, unless it is too long; reading never changes the number |
| `Mpi.GripHashMpi` | src/lib/key_material.cpp:35-65 | what is hashed is the record with the name, the length in decimal and the bytes, with or without the leading zero |
| `Mpi.BodyOf` | src/lib/key_material.cpp:45-64 | the declared length is the number of bytes that follow it |
| `Mpi.DsaGrip` | src/lib/key_material.cpp:555-562 | the records of p, q, g and y in this order |
| `Mpi.ElGamalGrip` | src/lib/key_material.cpp:712-718 | the records of p, g and y in this order |
| `Mpi.RecordsUnique` | src/lib/key_material.cpp:555-562 | equal hash inputs mean equal numbers, one by one, and conversely |
| `Mpi.SignedUnique` | src/lib/key_material.cpp:376-381 | the same for the RSA grip, which hashes the modulus without a record |
| `Subpacket.RoundTrip` | src/lib/sig_subpacket.cpp:218-731 | what is written parses to the same fields exactly if they satisfy the size rule of the type |
| `Subpacket.FieldPlaces` | src/lib/sig_subpacket.cpp:218-731 | where in the written bytes each field stands |
| `Subpacket.ParsesExactly` | src/lib/sig_subpacket.cpp:218-731 | which data each class accepts, by length and, for notations, by the two lengths inside |
| `Subpacket.DecodedFits` | src/lib/sig_subpacket.cpp:218-731 | fields that were parsed satisfy the size rule |
| `Subpacket.Rewrites` | src/lib/sig_subpacket.cpp:218-731 | writing parsed fields anew gives the same bytes exactly for canonical data: truth values 0 or 1, and one byte of flags |
| `Subpacket.Sub.Parse` | src/lib/sig_subpacket.cpp:68-80 | accepts exactly what the type allows, and then fields and cache agree; otherwise nothing changes |
| `Subpacket.Sub.Set` | src/lib/sig_subpacket.hpp:192-197 | a setter that clears the cache brings fields and cache into agreement, from any state |
| `Subpacket.Sub.SetName` | src/lib/sig_subpacket.cpp:516-524 | refuses exactly names over 65535 bytes; otherwise fields and cache agree, from any state |
| `Subpacket.Sub.SetContent` | src/lib/sig_subpacket.cpp:526-534 | refuses exactly values over 65535 bytes; otherwise fields and cache agree, from any state |
| `Subpacket.Sub.SetHumanReadable` | src/lib/sig_subpacket.cpp:506-514 | the cache is kept; fields and cache that agreed still do exactly if there was no cache or the flag did not change |
| `Subpacket.StaleFlag` | src/lib/sig_subpacket.cpp:506-514 | a flag set after writing is missing from what is written next |
| `Subpacket.Sub.Write` | src/lib/sig_subpacket.cpp:82-89 | returns the cache or the encoding; the result parses to the fields exactly if the cache agreed and they satisfy the size rule |
| `Subpacket.ParseThenWrite` | src/lib/sig_subpacket.cpp:68-89 | a parsed subpacket is written byte for byte as it was read, canonical or not |
| `SubpacketRun.AfterKept` | src/lib/sig_subpacket.cpp:68-89 | every operation keeps: a cache of fields that fit parses to the current fields, but for the human-readable bit |
| `SubpacketRun.RunWrites` | src/lib/sig_subpacket.cpp:68-89 | after any run of parsing, setting and writing, what is written parses to the fields if and only if they satisfy the size rule and, with a cache there, its human-readable bit is the current one |
| `SubpacketRun.RunAgrees` | src/lib/sig_subpacket.cpp:68-89 | runs that never set that bit keep the cache right, so their writes read back exactly under the size rule |
| `SubpacketRun.Perform` | src/lib/sig_subpacket.cpp:68-89 | each operation on the object has the specified effect |
| `SubpacketRun.WriteAfter` | src/lib/sig_subpacket.cpp:68-89 | the object, taken through any run and then written |
| `Subpacket.Create` | src/lib/sig_subpacket.cpp:194-209 | no object exactly for no bytes, an unknown critical type or refused data |
| `Subpacket.TypesOfClass` | src/lib/sig_subpacket.cpp:126-186 | which type numbers each class serves; every other number is unknown |

## Left out

- ArmorDecoder.ArmoredSource.Read: says when the missing CRC context is used or the table is left, not what the program does then.
- ArmorReference.PeekLine: the line that is found, not the growing peeks by which the source looks for it.
- ArmorEncoder.ArmoredDest.Write: write errors of the destination are not modelled.
- KeyStore.KeyStore.FindKey: search by userid is not modelled; fingerprint, key id and grip are.
- KeyStore.KeyStore.AddKey: validation and refresh of the added key are separate, in `KeyRefresh`; G10 keys are left out.
- KeyStore.KeyStore.ImportKey: the revalidation after a change is separate, in `KeyRefresh`.
- KeyStore.KeyStore.GetSigner: the fallback to a key provider is left out.
- KeyRefresh.Key.RefreshPrimary: key flags, validity of userids and the primary userid are left out.
- KeyRefresh.Key.ValidatePrimary: designated revokers and version 2 and 3 keys are left out.
- KeyRecord.KeyRecord.Write: packets are counted and ordered, their bytes are not modelled.
- Kbx.LoadKbx: whether the packets of a keyblock are acceptable is a parameter.
- Destination.Output.Write: write errors of the underlying output are not modelled.
- KbxWriter.WriteKbx: write errors of the destination are not modelled.
- Subpacket.Create: embedded signatures (type 32) are not modelled.
- Subpacket.Sub.Set: one method stands for all setters that assign a field and clear the cache.
- Cryptography, packet and signature parsing, s-expressions and their encryption, padding of protected keys.
- Armor header lines and type names, logging, allocation failure, threads.
- Checks of a signature's own times, including 32-bit wrap-around: part of the given verdict on it.
- Key generation, capability tables, security rules, command line, files and the C interface.

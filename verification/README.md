# Notbit: a verified model

Notbit is a Bitmessage node. This project models its hardest parts in Dafny and proves
what they promise: protocols as state machines whose every run is safe, parsers that work
in place or piece by piece proved against plain functions, and formats that can be read
back. `dafny verify dfyconfig.toml` checks the whole project.

| module | part of the program |
|---|---|
| `Bytes`, `TextLines`, `Stream` | octets, big-endian numbers, lines; decoders fed piece by piece |
| `PowTarget`, `PowScheduler`, `PowInPlace` | proof-of-work target; threads, queue, cancellation and callback |
| `Proto`, `MessageLayout`, `Acknowledgement` | wire format, message layout, the journey of an acknowledgement |
| `HashTable` | chained hash table |
| `Base64`, `Base64Canonical`, `QuotedPrintable`, `WordBuffer`, `EncodedWords`, `QWords`, `SaveMessage`, `ParseAddresses`, `MailParser`, `MailText`, `MailPieces`, `SubjectHeader` | mail: decoders, headers, subjects, address lists, what a mail delivers |
| `Base58`, `Addresses`, `KeyValue`, `Outgoings` | addresses in text form and the file of outgoing messages |
| `Connection`, `SendQueue` | splitting and reassembling commands; the objects a peer has asked for |
| `PubkeyIndex`, `Keyring`, `KeyringInPlace`, `PubkeyTrials`, `AckdataRuns` | the pubkey index, the ten states of an outgoing message, and what holds over its runs |
| `Inventory`, `Peers`, `StoreAgreement`, `ContentIds` | known objects, peers and addresses, the store's queue, and the ids of message contents |
| `Node` | the network and the keyring in one machine, from startup on |

SHA-512 is any function with results of 64 octets; big numbers are `nat`; clocks, random
numbers, validation of objects and the socket are parameters of steps. Where C integers
matter their width is written out. Classes stand for structures that the program updates
in place, and their methods are proved to do what functions on values say. The protocols
(`PowScheduler`, `Keyring`, `Inventory`, `Node`, `Peers`, `SendQueue`, `StoreAgreement`) are state
machines over such values: a step is a stretch between two lock operations or two returns
to the main loop, and the theorems are about all runs.

Places where the code departs from what it seems to intend, and what is modelled:

- `src/ntb-network.c:1047` passes the hash where the stored value is expected; the model
  removes the evicted inventory.
- `src/ntb-network.c:460` updates the listening sockets before the new peer is counted, so
  there can be nine incoming peers (`Peers.IncomingReached`).
- `src/ntb-network.c:528` can give an index equal to the count; `Peers.RandomIndex` says
  when, and the loops are modelled for the other random numbers.
- `src/ntb-mail-parser.c:169-176` matches any prefix of a header's name, and the model does
  too. A name that goes on after a zero octet would be compared beyond the end of the
  constant; the model then finds no match.
- `src/ntb-base64.h:45` sizes a piece of base64 as if nothing were pending, so a piece may
  give more octets than there is room for. `WordBuffer.PieceFitsIff` and
  `MailPieces.PieceFitsIff` give the exact condition, `WordBuffer.NineteenOverrun`,
  `WordBuffer.LettersFitIff` and `MailPieces.ContentOverruns` inputs that overrun the buffer
  of an encoded word and that of a mail's content.
- `src/ntb-keyring.c:589-607` would leave a message without work if a pubkey arrived that
  the network does not have; `Keyring.NextKeeps` says exactly when, and `Node.EveryRunSafe`
  that it never happens, because of the order of `src/ntb-network.c:1119-1138`.
- `src/ntb-save-message.c:99-108` writes a subject with runs of spaces as it is, and the mail
  parser tidies them; `SubjectHeader.WrittenIsReported` says exactly which subjects come back.
- `src/ntb-key-value.c:272` compares the pointer instead of the number, so negative numbers
  are accepted; a negative content id becomes a large one. The id -1 makes the counter of
  `src/ntb-keyring.c:1199` wrap: `ContentIds.TwoRecordsCollide` is a file after which the next
  message is saved over the content of a live one, and `ContentIds.CounterWraps` and
  `ContentIds.StartupFreshIff` say exactly when the counter wraps and when the startup leaves
  it at a fresh id.
- `src/ntb-load-outgoings.c:119-126` drops records whose content id is above INT_MAX, and an
  address of version 0 does not survive its text form; `Outgoings.FileRoundTrip` says
  exactly which lists come back.
- `src/ntb-proto.c:194-223` reads a timestamp above 32 bits as a shorter one;
  `Acknowledgement.AckRecognised` gives the exact condition for acknowledgements.
- `src/ntb-store.c:1997` may follow the record of finished work; a cancel is modelled as
  reaching only its own.

## Model

| member | source | states |
|---|---|---|
| `PowTarget.TargetExact` | src/ntb-pow.c:329-352 | the 64-bit computation of the target is the floor of 2^64 / divisor exactly for the divisors from 2 to 2^63 |
| `PowTarget.TargetAntitone` | src/ntb-pow.c:329-352 | a larger divisor never gives an easier target |
| `PowTarget.TargetMonotone` | src/ntb-pow.c:329-352 | the target never rises with the length, the extra bytes or the trials per byte |
| `PowTarget.ClampedNoncePasses` | src/ntb-keyring.c:1302-1324 | a nonce found at the recipient's difficulty, clamped to the network minimum and written big-endian in front of the payload, passes the network's check at the minimum |
| `PowTarget.MinimumIs` | src/ntb-network.c:931-938 | the network's check at the minimum is that the value of the work in front of an object is at most the floor of 2^64 / ((length + 14000) * 320) |
| `PowTarget.ClampedNonceSuffices` | src/ntb-keyring.c:1302-1324 | a nonce found at that difficulty also meets what the recipient itself asks for |
| `PowScheduler.SearchRound` | src/ntb-pow.c:194-239 | the inner loop of a search round, proved against the recursive search: it stops at the first nonce that meets the target or after the tests of one round |
| `PowScheduler.SearchTests` | src/ntb-pow.c:194-239 | a round that starts at the k-th nonce of an offset goes through the next nonces of that offset's residue class in order: a miss has rejected all of them, a hit is the first that meets the target |
| `PowScheduler.PickEffect` | src/ntb-pow.c:241-276 | an offset handed out is new for its cookie, comes from the head of the queue, and the cookie leaves the queue with its last offset |
| `PowScheduler.CancelEffect` | src/ntb-pow.c:278-303 | a cancelled cookie is left with exactly the references of the threads that still search it, and is freed if there are none |
| `PowScheduler.NextKeeps` | src/ntb-pow.c:88-303 | every step of callers, threads, idle callback and shutdown keeps the invariant: reference counts equal the live holders, only the queue's head is partly handed out, no two threads search one cookie at one offset, every offset below the next was handed out, and each thread stands at the nonce of its offset's class that comes after those tried, all of which failed |
| `PowScheduler.EveryRunSafe` | src/ntb-pow.c:88-303 | in every interleaving each cookie's count equals its holders, it is freed once and only when none remain, nothing freed is used, every thread goes through the residue class of its offset without skipping a solution, and the callback runs at most once, never after a cancel, with a nonce that meets the target |
| `PowScheduler.TestsApart` | src/ntb-pow.c:194-276 | in every run two tests of one cookie, by whatever threads, are tests of two different nonces, as long as no class has wrapped |
| `PowScheduler.AllNoncesCovered` | src/ntb-pow.c:194-276 | in every run a cookie whose offsets were all handed out has every 64-bit nonce in the class of one of its threads, and a nonce that its thread has passed does not solve the job |
| `PowInPlace.Pow.Calculate` | src/ntb-pow.c:354-392 | a new cookie is its caller's, waits behind the queue's head with none of its offsets handed out, and the invariant is kept |
| `PowInPlace.Pow.PickUp` | src/ntb-pow.c:241-276 | a thread takes from the queue's head an offset that was never handed out for that job; the cookie leaves the queue exactly with its last offset, no other cookie changes, and the invariant is kept |
| `PowInPlace.Pow.FindNonce` | src/ntb-pow.c:194-239 | one round of the search, by the loop over nonces, goes on in the thread's residue class and stops at the first nonce that solves the job |
| `PowInPlace.Pow.SetSolution` | src/ntb-pow.c:171-192 | the cookie is done; a nonce is set, one that solves the job, only if there was none and the caller still wants it, and an earlier one stays |
| `PowInPlace.Pow.IdleCallback` | src/ntb-pow.c:137-169 | the callback is given a nonce that solves the submitted job, once, for a caller that has not cancelled; the cookie stays only for the queue and for the threads at work on it |
| `PowInPlace.Pow.CancelCookie` | src/ntb-pow.c:278-303 | afterwards only the threads at work on the cookie hold it, they find it done, no callback can follow, and no other cookie changes |
| `PowInPlace.Pow.FreeQueue` | src/ntb-pow.c:113-135 | the loop over the cookies still in the queue leaves allocated exactly those whose callers have not ended them |
| `PowInPlace.Drive` | src/ntb-pow.c:88-303 | the structures after any run of critical sections, in whatever order the lock was taken, are those of the run and safe; no method ever follows a freed cookie |
| `PowScheduler.NothingLeaks` | src/ntb-pow.c:113-135 | after a shutdown with every cookie cancelled or called back nothing is left allocated |
| `Proto.VarIntRoundTrip` | src/ntb-proto.c:631-647 | every 64-bit number written as a variable-length integer is read back, whatever follows |
| `Proto.TimestampRoundTrip` | src/ntb-proto.c:194-223 | a 64-bit timestamp is read back exactly when it is below 2^32 |
| `Proto.GetCommand` | src/ntb-proto.c:263-353 | the argument loop reads what the list of argument types calls for, or fails |
| `Proto.ArgumentsRoundTrip` | src/ntb-proto.c:737-792 | an argument list written for a command is read back value by value, with the rest untouched |
| `Proto.FrameRoundTrip` | src/ntb-connection.c:577-668 | a framed command is recognised whatever follows it and gives back its name and payload |
| `Proto.NextCommandStable` | src/ntb-connection.c:630-668 | octets that arrive later never change a decision about a command already made |
| `Proto.NextCommandExactly` | src/ntb-connection.c:630-668 | a command is recognised if and only if the octets begin with its frame; they are given up as broken if and only if the length is too large, or as many octets as it says are there and no frame begins them |
| `MessageLayout.LayoutRoundTrip` | src/ntb-proto.c:370-488 | parsing the plaintext built for any keys, version, encoding, content and acknowledgement, followed by a length-prefixed signature, returns those fields; its signed length is exactly what was signed |
| `MessageLayout.SignatureReachesEnd` | src/ntb-proto.c:370-488 | a message is accepted if and only if its signature has the length said in front of it: a part of one, or one with something behind it, is refused |
| `Acknowledgement.CompleteAck` | src/ntb-keyring.c:1326-1370 | patching nonce and checksum into the buffer changes exactly those octets |
| `Acknowledgement.CompletedIsFrame` | src/ntb-keyring.c:1372-1420 | the completed acknowledgement is a well-formed msg command inside the message and nothing else changes |
| `Acknowledgement.FrameIsPosted` | src/ntb-keyring.c:666-707 | the recipient posts exactly the payload of a framed acknowledgement |
| `Acknowledgement.PostsExactly` | src/ntb-keyring.c:666-707 | the recipient posts an object if and only if the acknowledgement has a header's length and one of the four command names, padded with zeros, in its place; empty, short and unknown ones post nothing |
| `Acknowledgement.MsgContentIsCommand` | src/ntb-keyring.c:919-951 | the content of a msg object is what follows its three header arguments |
| `Acknowledgement.AckRecognised` | src/ntb-keyring.c:895-951 | the sender reads its 32 octets back exactly when the timestamp fits in 32 bits or in one accidental case |
| `Acknowledgement.AckJourney` | src/ntb-keyring.c:1326-1420 | an acknowledgement built by the sender, completed, carried in the message, parsed and posted by the recipient passes the network's proof-of-work test and is read by the sender as its ackdata |
| `HashTable.InsertKeeps` | src/ntb-hash-table.c:100-107 | putting an item into the bucket of its hash keeps the table a representation of the map |
| `HashTable.RemoveKeeps` | src/ntb-hash-table.c:169-195 | taking an item out of its chain removes exactly its key from the map |
| `HashTable.Table.Get` | src/ntb-hash-table.c:82-98 | a lookup returns what the map holds for the hash |
| `HashTable.Table.Grow` | src/ntb-hash-table.c:109-134 | growing doubles the size and changes no lookup and no count |
| `HashTable.Table.Set` | src/ntb-hash-table.c:136-166 | setting updates the map at one hash; the count stays within three quarters of a power of two |
| `HashTable.Table.Remove` | src/ntb-hash-table.c:169-195 | removing deletes one hash from the map |
| `HashTable.Replay` | src/ntb-hash-table.c:48-195 | over any sequence of operations the table holds the map that the operations describe |
| `Stream.AnySplit` | src/ntb-base64.c:101-139 | feeding pieces of any size gives the outcome of the whole input, for every octet-by-octet decoder |
| `Base64.Decoder.Push` | src/ntb-base64.c:101-139 | a piece is decoded as octet by octet, with the separate scan for padding |
| `Base64.Decoder.HandlePadding` | src/ntb-base64.c:78-99 | after padding only padding and ignored characters may follow |
| `Base64.EncodeLoop` | src/ntb-base64.c:186-228 | the encoding loop, proved against the recursive definition |
| `Base64.EncodeRoundTrip` | src/ntb-base64.c:186-228 | decoding what was encoded returns every input exactly |
| `Base64Canonical.DecodesExactly` | src/ntb-base64.c:78-169 | an input decodes to some octets exactly when its significant characters are what those octets are encoded as: other characters are ignored, padding and leftover bits are not |
| `Base64.FeedSize` | src/ntb-base64.c:101-139 | a piece gives exactly three octets for each group of four alphabet characters, counting those carried over |
| `Base64.DecodeShrinks` | src/ntb-base64.c:141-169 | decoding never makes a text longer |
| `QuotedPrintable.Decoder.Push` | src/ntb-quoted-printable.c:205-262 | the loop over the five states' handlers decodes a piece as octet by octet does |
| `QuotedPrintable.Decoder.Handle` | src/ntb-quoted-printable.c:97-203 | each handler uses up at least one octet and does what feeding those octets does |
| `QuotedPrintable.DecodesTokens` | src/ntb-quoted-printable.c:97-274 | the decoder accepts exactly the texts made of plain octets, escaped octets and soft line breaks, and gives what they stand for |
| `QuotedPrintable.FeedShrinks` | src/ntb-quoted-printable.c:205-262 | decoding never makes a text longer |
| `EncodedWords.NextTurnShrinks` | src/ntb-encoded-words.c:232-283 | every turn of the decoding loop writes less than it uses up, or exactly what it uses up |
| `EncodedWords.FindString` | src/ntb-encoded-words.c:49-64 | the search loop finds the first place of a two-octet string in the buffer |
| `WordBuffer.ProcessBase64` | src/ntb-encoded-words.c:87-138 | a word's body fed piece by piece is decoded as a whole; the octets stay within the growing buffer exactly when every piece finds room |
| `WordBuffer.PieceFitsIff` | src/ntb-encoded-words.c:97-121 | a piece finds room exactly when there is room for three octets for every four of its letters and of those left over from before it |
| `WordBuffer.ShortBodiesFit` | src/ntb-encoded-words.c:97-121 | every body of fewer than 19 characters stays within a new buffer |
| `WordBuffer.NineteenOverrun` | src/ntb-encoded-words.c:97-121 | 19 characters are the least that overrun a new buffer: three letters, seven ignored characters and nine letters give 9 octets for 8 |
| `WordBuffer.LettersFitIff` | src/ntb-encoded-words.c:97-121 | a body of letters of any length stays within a new buffer exactly if it has fewer than 44; any longer one puts 33 octets into 32 |
| `WordBuffer.EncodedFitsIff` | src/ntb-encoded-words.c:97-121 | the base64 of any octets, with its padding, stays within a new buffer exactly if there are at most 32 octets |
| `WordBuffer.ProcessQuotedPrintable` | src/ntb-encoded-words.c:140-177 | a quoted-printable body fed piece by piece is decoded as a whole and always stays within the buffer |
| `EncodedWords.ProcessWord` | src/ntb-encoded-words.c:179-230 | a word is recognised and decoded, from the buffer as it stands, as the function of its text says |
| `EncodedWords.TakeTurn` | src/ntb-encoded-words.c:245-275 | one turn in the order of the program, which moves the text before a word down, then looks at the octet before the word and reads the word from the changed buffer, is the turn that an untouched copy gives |
| `EncodedWords.DecodeLoop` | src/ntb-encoded-words.c:232-283 | the loop over one shared buffer leaves in it what decoding an untouched copy gives, because writing never passes reading |
| `EncodedWords.DecodeInPlace` | src/ntb-encoded-words.c:232-283 | decoding a header in place equals decoding a copy, and nothing beyond the header changes |
| `QWords.QWordDecodes` | src/ntb-encoded-words.c:140-230 | a Q word of either character set, with its names in any letter case, decodes to its octets, escapes decoded and each underscore a space, followed by what the rest of the header decodes to |
| `QWords.BWordDecodes` | src/ntb-encoded-words.c:87-230 | a word in base64 decodes to the octets its body stands for, followed by what the rest decodes to |
| `QWords.MarkerIsKept` | src/ntb-encoded-words.c:245-275 | the two octets that start a word are kept as they are behind any octet but a space |
| `QWords.QHeaderDecodes` | src/ntb-encoded-words.c:232-283 | so a header that begins with a Q word, decoded in place or as a copy, is its text and then that of the rest |
| `SaveMessage.WriteEncodedWords` | src/ntb-save-message.c:63-97 | the loop writes one encoded word for each chunk, folded by a newline and a space; the assertion on the size of each encoded chunk holds |
| `SaveMessage.ChunkFits` | src/ntb-save-message.c:72-83 | the base64 of a chunk fits its buffer of 52 characters, and a chunk of more than 36 octets fills it |
| `SaveMessage.LinesFit` | src/ntb-save-message.c:63-97 | every line of the header has at most 76 characters (section 2 of RFC 2047) |
| `SaveMessage.WordRoundTrip` | src/ntb-save-message.c:63-97 | a written word is read as that word, whatever follows it |
| `SaveMessage.SubjectRoundTrip` | src/ntb-save-message.c:63-97 | decoding the unfolded output returns every subject exactly; in C the result is defined only for subjects of at most 32 octets (SubjectStaysIff) |
| `SaveMessage.SubjectStaysIff` | src/ntb-save-message.c:63-97 | reading the words of a subject back stays within the decoding buffer exactly for subjects of at most 32 octets, which are one word; the first word of any longer one overruns it |
| `SaveMessage.NeedEncodedWords` | src/ntb-save-message.c:40-61 | encoded words are used exactly for subjects that are too long, have control or non-ASCII octets, or contain the start of an encoded word |
| `SubjectHeader.WrittenIsReported` | src/ntb-save-message.c:99-108 | the mail parser reports exactly the subject written if and only if it was written as encoded words or has no space at either end and never two together; otherwise it reports the subject with its spaces tidied; for encoded words the C result is defined only for subjects of at most 32 octets (SaveMessage.SubjectStaysIff) |
| `ParseAddresses.Parser.Run` | src/ntb-parse-addresses.c:198-262 | parsing in the buffer that also collects the addresses gives what parsing an untouched copy gives, and changes nothing beyond the list |
| `ParseAddresses.Parser.ParseQuotes` | src/ntb-parse-addresses.c:105-150 | quoted text is collected without catching up with the reading |
| `ParseAddresses.Parser.ParseBrackets` | src/ntb-parse-addresses.c:152-196 | an address in brackets replaces the text before it; a second one is refused |
| `ParseAddresses.Parser.ProcessAddress` | src/ntb-parse-addresses.c:50-90 | the text before the at sign is offered to the caller if the domain is right; what follows the collected text stays |
| `ParseAddresses.ListRoundTrip` | src/ntb-parse-addresses.c:198-262 | every written list, of addresses by themselves, with a quoted name or with words before brackets, offers exactly its addresses, in order |
| `MailParser.Parser.Handle` | src/ntb-mail-parser.c:525-774 | the handler of each state does what feeding the octets it used does; one that uses none leads to a state that does |
| `MailParser.Parser.HandleHeaderEnd` | src/ntb-mail-parser.c:448-483 | a finished header is handled once, with duplicates and bad values refused; subject and addresses through the in-place parsers; MailText.MailDelivers says what comes of it |
| `MailParser.Parser.HandleHeadersEnd` | src/ntb-mail-parser.c:485-523 | the content begins only after a sender and some destination |
| `MailParser.Parser.Parse` | src/ntb-mail-parser.c:776-834 | a piece of any size has the effect of its octets one by one, and the loop ends although two states may use none |
| `MailParser.Parser.End` | src/ntb-mail-parser.c:836-875 | a mail may end only in its content, with complete encodings |
| `MailParser.ParsePieces` | src/ntb-mail-parser.c:776-875 | for every split of a mail the verdict, the addresses, the subject and the content are those of the whole mail; MailText.MailDelivers says what those are |
| `MailText.MailDelivers` | src/ntb-mail-parser.c:196-523 | a mail of lines for sender, recipients, subject, type and encoding and of other headers, in any order, letter case, folding and spacing, is accepted if and only if each header that is looked at comes once, there are one sender and some recipients, and every address, the type, the encoding and the content are good; it delivers the sender as source, the recipients as destinations in the order of the lines, the subject, and the content decoded as named |
| `MailText.HeadersNeedEnd` | src/ntb-mail-parser.c:836-875 | a mail that ends before the empty line is not accepted |
| `MailPieces.PieceFitsIff` | src/ntb-mail-parser.c:676-712 | a base64 piece finds room in the buffer of 512 octets exactly when fewer than 684 letters are pending |
| `MailPieces.ContentOverruns` | src/ntb-mail-parser.c:676-712 | a mail of any header lines that are accepted, in base64, with 1364 letters as its content puts 513 octets into that buffer |
| `SubjectHeader.FoldedIsCollected` | src/ntb-mail-parser.c:562-658 | the parser unfolds what the subject writer folded (section 3.1.1 of RFC 822) |
| `SubjectHeader.SubjectIsReported` | src/ntb-mail-parser.c:196-218 | every subject written as folded encoded words is reported by the mail parser exactly; in C the result is defined only for subjects of at most 32 octets (SaveMessage.SubjectStaysIff) |
| `Base58.GetDigitValue` | src/ntb-base58.c:80-101 | the binary search finds exactly the digits of the alphabet |
| `Base58.ReverseBytes` | src/ntb-base58.c:35-47 | the in-place reversal |
| `Base58.EncodeInPlace` | src/ntb-base58.c:49-78 | the digit loop and the reversal give the digits of the number, most significant first |
| `Base58.DecodeDigits` | src/ntb-base58.c:103-144 | the decoding loop, with its special case for zero and its limit |
| `Base58.RoundTrip` | src/ntb-base58.c:49-144 | decoding what was encoded gives the octets without leading zeros, and one zero for nothing but zeros |
| `Base58.PaddedRoundTrip` | src/ntb-load-outgoings.c:76-94 | padded on the left to the old size, any octets come back exactly |
| `Base58.AddressDigits` | src/ntb-address.h:37-47 | 26 octets need at most 36 digits |
| `Base58.AckdataDigits` | src/ntb-store.c:776-793 | 32 octets need at most 44 digits, so the assertion on the length holds |
| `Addresses.EncodeAddress` | src/ntb-address.c:61-107 | the trimming loop and the encoding; the text has at most 39 characters |
| `Addresses.DecodeAddress` | src/ntb-address.c:109-150 | decoding refuses bad digits, short data and bad checksums and pads the ripe to 20 octets |
| `Addresses.RoundTrip` | src/ntb-address.c:61-150 | an address comes back exactly when its version is at least 1, whatever the hash function |
| `Addresses.DecodesExactly` | src/ntb-address.c:109-150 | a text is read as an address if and only if its digits spell version, stream, the ripe with any number of its leading zeros left out, and the right checksum of these |
| `KeyValue.Loader.HandleByte` | src/ntb-key-value.c:101-207 | one octet moves the machine of eleven states and reports what the step function says |
| `KeyValue.Load` | src/ntb-key-value.c:209-237 | a file is reported event by event, its end counting as the end of a line |
| `KeyValue.FileMeans` | src/ntb-key-value.c:101-237 | the machine of eleven states reports of every file, well formed or not, what its lines mean one by one |
| `KeyValue.LineRun` | src/ntb-key-value.c:101-207 | a written line is reported as its key and value |
| `KeyValue.PrintedRoundTrip` | src/ntb-key-value.c:259-285 | a printed integer is read back exactly when it fits 64 bits and the limit, negative ones included |
| `KeyValue.ParsesExactly` | src/ntb-key-value.c:259-285 | a text is read as a number if and only if it is white space, perhaps a sign and at least one digit with nothing behind, and the number has 64 bits and is not above the limit |
| `Outgoings.WriteOutgoing` | src/ntb-store.c:776-812 | a record is written field by field and its buffers suffice |
| `Outgoings.Loader.TakeEvent` | src/ntb-load-outgoings.c:96-166 | a header reports the finished record if it is complete; a property fills in its field or leaves the record alone |
| `Outgoings.LoadOutgoings` | src/ntb-load-outgoings.c:168-185 | loading a file, proved against the fold over its events |
| `Outgoings.RecordRoundTrip` | src/ntb-load-outgoings.c:52-185 | a written record comes back as it was exactly when both versions are at least 1 and the content id is an int |
| `Outgoings.RecordLoaded` | src/ntb-load-outgoings.c:52-185 | of any file, a record up to the next heading or the end becomes a message if and only if it says both addresses, the ackdata and the id; the last readable value of each key counts, whatever the order, and unknown keys and unreadable values are passed over |
| `Outgoings.FileRoundTrip` | src/ntb-store.c:776-812 | loading what was written for a list yields the same list in order exactly when every record is one that comes back |
| `Connection.Receiver.ProcessCommands` | src/ntb-connection.c:630-668 | the framing loop handles the commands at the start of the buffer and keeps the rest |
| `Connection.Receiver.Read` | src/ntb-connection.c:670-702 | what was handled and what is buffered depend only on all octets received so far |
| `Connection.ReceiveAll` | src/ntb-connection.c:630-702 | however the octets are cut into reads, the same commands are handled |
| `Connection.Sender.EndHashCommand` | src/ntb-connection.c:1165-1181 | an open command becomes a frame, or is abandoned when it has no hashes |
| `Connection.Sender.AddHash` | src/ntb-connection.c:1183-1198 | adding a hash to a full command ends it and begins another |
| `Connection.Sender.SendHashes` | src/ntb-connection.c:1142-1198 | any number of hashes between begin and end are sent as the frames of their groups |
| `Connection.GroupsSplit` | src/ntb-connection.c:1183-1198 | the groups have 1 to 252 hashes, are together the whole list, and there is none for an empty list |
| `Connection.EndedIsFrame` | src/ntb-proto.c:699-735 | filling in length and checksum makes a frame of the payload |
| `Connection.PayloadRead` | src/ntb-connection.c:518-540 | a written payload is read as the hashes it was written for |
| `Connection.HashesArrive` | src/ntb-connection.c:518-668 | what was sent, delivered in any pieces, is handled as commands of 1 to 252 hashes that together are exactly the hashes sent, with nothing left over |
| `SendQueue.Queue.AddReadyObjects` | src/ntb-connection.c:788-820 | the loop that frames ready objects, proved against its recursive form |
| `SendQueue.Queue.Write` | src/ntb-connection.c:822-854 | what is written continues what was written before and is a prefix of all frames; something is written if the socket has room, the requests to load stay, and the invariant is kept |
| `SendQueue.Queue.Send` | src/ntb-connection.c:757-777 | a request is recorded; an object at hand is the last to go out and writing is polled for; any other waits behind those to be loaded, with a load under way or something ready; the invariant is kept |
| `SendQueue.Queue.Loaded` | src/ntb-connection.c:704-727 | a load that ends has an entry waiting for exactly that object, a request that was made, which goes out after what is ready; the invariant is kept |
| `SendQueue.NextKeeps` | src/ntb-connection.c:195-211 | every step keeps progress, polling and conservation |
| `SendQueue.EveryRun` | src/ntb-connection.c:704-854 | in every run a load is under way or an object ready whenever something waits to be loaded, a load is for the first entry, writing is polled for exactly when needed, and every octet and every request is accounted for in order |
| `SendQueue.Drive` | src/ntb-connection.c:704-854 | a connection's queues after any run of requests, loads, writes and other commands are those of the run, with the invariant |
| `SendQueue.Drained` | src/ntb-connection.c:704-854 | with loads that succeed and a peer that reads, every request ends up framed exactly once, each kind in its order, with the object of its hash, and every octet written |
| `SendQueue.EveryRunDelivers` | src/ntb-connection.c:704-854 | in every run that ends with empty queues, however it was interleaved, each request was framed exactly once, each kind in its order, the object framed is the one with the requested hash, and every octet was written |
| `PubkeyIndex.InsertKeeps` | src/ntb-keyring.c:653-661 | inserting after the first entry of its group, or at the front, keeps the list grouped and the table leading to each group's first entry |
| `PubkeyIndex.RemoveKeeps` | src/ntb-keyring.c:999-1036 | removing an entry, moving or dropping the table's entry by looking at its neighbours, keeps list and table |
| `PubkeyIndex.WalkIsGroup` | src/ntb-keyring.c:1706-1740 | walking from the entry the table leads to while the key stays the same meets exactly the entries with that key |
| `PubkeyIndex.GroupRemoved` | src/ntb-keyring.c:999-1036 | a removal makes one group smaller by one and no other |
| `PubkeyIndex.GroupInserted` | src/ntb-keyring.c:653-661 | a new entry becomes the second of its group, or the first of a new one, and no other group changes |
| `PubkeyIndex.Index.Insert` | src/ntb-keyring.c:609-664 | the insertion, updating list and table in place |
| `PubkeyIndex.Index.Remove` | src/ntb-keyring.c:999-1036 | the removal, updating list and table in place; an entry no longer in the list is left alone |
| `PubkeyIndex.Index.Candidates` | src/ntb-keyring.c:1706-1740 | the loop over the candidates for a key |
| `Keyring.BeginKeeps` | src/ntb-keyring.c:1595-1602 | starting the work that a state calls for completes the invariant of its message |
| `Keyring.CancelKeeps` | src/ntb-keyring.c:203-230 | cancelling leaves a message without work, object or pubkey entry, and every count right |
| `Keyring.FreeKeeps` | src/ntb-keyring.c:232-245 | a freed message leaves no work behind that would call it back |
| `Keyring.AddEntryKeeps` | src/ntb-keyring.c:609-664 | a new pubkey entry is indexed and held by the list only |
| `Keyring.RemoveBlobKeeps` | src/ntb-keyring.c:999-1036 | a removed entry loses the list's reference and is freed when no message tries it |
| `Keyring.TryBlobKeeps` | src/ntb-keyring.c:1674-1704 | trying an entry moves the message's reference to it and starts the work for where the object is |
| `Keyring.LoadPublicKeyKeeps` | src/ntb-keyring.c:1706-1740 | a message that seeks a key is left with the work its new state calls for and every entry with its right count |
| `Keyring.LoadPublicKeySeeks` | src/ntb-keyring.c:1674-1740 | it tries the first entry of the list with its key whose object the network has, from memory or from the store as it is there, and asks for the key, or waits if that was done lately, if and only if the network has none of them |
| `Keyring.DoneKeeps` | src/ntb-keyring.c:1255-1758 | every callback finds its message in the state it was started for, with all it uses, and leaves it in order |
| `KeyringInPlace.Ring.WorkDone` | src/ntb-keyring.c:1255-1758 | the callbacks, updating the keyring in place; nothing absent or freed is used |
| `KeyringInPlace.Ring.CancelMessageTasks` | src/ntb-keyring.c:203-230 | cancelling, cookie by cookie |
| `KeyringInPlace.Ring.LoadKey` | src/ntb-keyring.c:1706-1740 | the table and the loop over the entries that follow lead to trying the first entry of the key that is at hand, or to asking for the key if and only if none is |
| `KeyringInPlace.Ring.TryGroup` | src/ntb-keyring.c:1720-1737 | the loop over the entries of a key |
| `KeyringInPlace.Ring.CheckPubkeyBlobWithMessages` | src/ntb-keyring.c:589-607 | the loop over the messages when a pubkey arrives |
| `KeyringInPlace.Ring.HandlePubkey` | src/ntb-keyring.c:609-664 | a new pubkey is inserted and offered to the messages in the order of their list; the invariant holds afterwards if and only if the network has the object or no message was calculating a request for it |
| `KeyringInPlace.Ring.CheckMsgAcknowledgement` | src/ntb-keyring.c:895-917 | the first message in the list that holds the octets is freed and nothing else changes; with distinct ackdata a message is freed exactly by its own octets |
| `Keyring.DoneLeads` | src/ntb-keyring.c:1255-1758 | every callback moves its own message along its course, or ends it when its content is lost, and touches no other message; one that seeks a key tries the first entry at hand and asks for the key if and only if none is |
| `Keyring.DoneForgets` | src/ntb-keyring.c:1605-1660 | a callback takes one entry out of the list, the one that turned out bad, and any other callback none |
| `Keyring.SendLeads` | src/ntb-keyring.c:1760-1861 | a new message first has its ackdata generated |
| `Keyring.RestoreLeads` | src/ntb-keyring.c:1189-1226 | a restored message goes on at once: with the recipient's key it is sent unless it still is in the network, and without it seeks one among the entries there are |
| `Keyring.ExpireForgets` | src/ntb-keyring.c:1038-1056 | an expired entry is the only one that goes, and no message changes |
| `Keyring.InterruptSafeIff` | src/ntb-keyring.c:589-607 | a new pubkey leaves a message with the work its state calls for exactly when the network has the object or the message was only waiting |
| `Keyring.InterruptedForNothing` | src/ntb-keyring.c:589-607 | otherwise the message is left calculating with nothing under way |
| `Keyring.ResendKeeps` | src/ntb-keyring.c:1058-1081 | the resend timer starts work again only for messages that wait |
| `Keyring.ResendLeads` | src/ntb-keyring.c:1058-1081 | the timer makes a waiting message ask for its key or be sent again, unless what it waits for still is in the network, and leaves every other message alone |
| `Keyring.NextKeeps` | src/ntb-keyring.c:1255-1861 | every step keeps the invariant: each message has exactly the one cookie its state calls for, each piece of work belongs to a message in its state, keys are present from LOADING_CONTENT on, entries are counted by their holders, and nothing absent or freed is used; the one exception, exactly, is a pubkey that the network does not have while a message calculates a request for it |
| `Keyring.HandlePubkeyTries` | src/ntb-keyring.c:589-607 | every message that waits for a key or calculates a request for it tries the new pubkey as soon as it arrives |
| `Keyring.HandlePubkeyAdds` | src/ntb-keyring.c:609-664 | the new pubkey is there for messages to come, second in its group, no other group changes, and a message that does not ask for it is left alone |
| `Keyring.AcknowledgedFirst` | src/ntb-keyring.c:895-917 | an acknowledgement ends the first message that holds its 32 octets and only that one, and one that nobody holds changes nothing |
| `Keyring.AcknowledgedExactly` | src/ntb-keyring.c:895-917 | with distinct ackdata the messages left are those without a message exactly when that message holds the received octets |
| `AckdataRuns.NextDistinct` | src/ntb-keyring.c:1742-1758 | no step changes the ackdata of a message that has them, so they stay distinct if those handed out are new |
| `Node.AddObjectKeeps` | src/ntb-network.c:1056-1150 | whatever arrives leaves inventory and keyring in order: a pubkey is in memory when the keyring asks for it |
| `Node.ArriveDecides` | src/ntb-network.c:899-940 | an object from a peer that is new is rejected, without the keyring hearing of it, if and only if it is dated half an hour or more ahead, is 28 days old for a pubkey or two and a half for another, or has too little work in front of it; otherwise it is accepted, in memory if and only if it is less than ten minutes old |
| `Node.ArriveOtherwise` | src/ntb-network.c:1056-1150 | an object of the node's own is always accepted; one that is known or has no header changes nothing |
| `Node.EndedPosts` | src/ntb-keyring.c:1255-1283 | when the work for a request or a message is done the object is accepted by the network before the message goes on; the end of any other work posts nothing |
| `Node.StoredIsThere` | src/ntb-network.c:1336-1361 | after startup an object in the store can be had from disk |
| `Node.StoredPubkeyIsThere` | src/ntb-keyring.c:1178-1187 | a pubkey in the store is in the list after startup, with those for its key before it |
| `Node.EveryRunSafe` | src/ntb-run.c:264-286 | in every run of network and keyring from startup on, with the keyring's questions answered from the inventory of that moment, every message has exactly the work its state calls for, also when a pubkey interrupts its calculation, and nothing absent or freed is used |
| `Node.PubkeyIsTried` | src/ntb-keyring.c:971-997 | a pubkey that the network accepts is tried at once by every message that asks for it |
| `Node.AcknowledgementReturns` | src/ntb-keyring.c:919-951 | the acknowledgement that the sender builds into its message, the recipient finds there and posts, ends the sender's own message and no other when it comes back |
| `Node.EveryAcknowledgementReturns` | src/ntb-keyring.c:895-951 | in every run in which generated and restored ackdata are new, an acknowledgement that comes back for the first time ends the message it belongs to and no other |
| `Keyring.OneTask` | src/ntb-keyring.c:99-143 | what that means for one message: one piece of work, or none in the two waiting states |
| `Keyring.FailureShrinks` | src/ntb-keyring.c:1605-1660 | each failed check leaves fewer pubkeys to try |
| `PubkeyTrials.TrialsShrink` | src/ntb-keyring.c:1605-1660 | every failure costs a message one of its trials, and no other step but the arrival of a pubkey gives it more |
| `PubkeyTrials.FailuresBounded` | src/ntb-keyring.c:1605-1660 | between two arrivals of pubkeys, whatever is interleaved, a message fails at most once more than there are pubkeys for it |
| `Keyring.RemovalNeverAdds` | src/ntb-keyring.c:1038-1056 | garbage collection never gives a message more to try |
| `Inventory.Reject` | src/ntb-network.c:1031-1054 | rejecting evicts the oldest rejected inventory when there are 16384, and keeps the invariant |
| `Inventory.AddObject` | src/ntb-network.c:1056-1150 | an arriving object turns its stub or a new inventory into an accepted or rejected one, and keeps the invariant |
| `Inventory.HandleInv` | src/ntb-network.c:875-897 | every unknown hash is asked for once, and the invariant is kept |
| `Inventory.GcAll` | src/ntb-network.c:1222-1272 | garbage collection keeps the invariant |
| `Inventory.RemovePeer` | src/ntb-network.c:351-384 | a peer's requests go with it, and the invariant is kept |
| `Inventory.EveryRun` | src/ntb-network.c:854-1272 | in every run each inventory is indexed under its own hash, is in exactly one list, once, the one its state names, and the rejected ones are counted and at most 16384 |
| `Inventory.OnePlace` | src/ntb-network.c:216-226 | what that means for one inventory |
| `Inventory.ArriveEffect` | src/ntb-network.c:1056-1150 | an object new to the network is rejected if bad and otherwise accepted, in memory unless old; nothing else changes except that the oldest rejected one may make room |
| `Inventory.LoadEffect` | src/ntb-network.c:1336-1361 | an object found in the store at startup can be had from disk, unless it is known, and no other is touched |
| `Inventory.ArrivedLocation` | src/ntb-network.c:1672-1694 | a good object can be had as soon as it has come, from disk if it is old; a bad one cannot be had |
| `Inventory.CollectedLocation` | src/ntb-network.c:1672-1694 | an object dropped from memory can still be had, from disk |
| `Inventory.AdvertiseEffect` | src/ntb-network.c:875-897 | exactly the advertised hashes that were unknown become requests to the peer |
| `Inventory.CollectEffect` | src/ntb-network.c:1222-1272 | each inventory of a list is kept, forgotten or dropped from memory as its age says, and no other changes |
| `Inventory.DisconnectEffect` | src/ntb-network.c:351-384 | when a peer goes exactly what was asked of it is forgotten |
| `Inventory.SignalledInMemory` | src/ntb-network.c:1119-1138 | when a new object is announced the network has it in memory; Node.AddObjectKeeps rests on it |
| `Inventory.Network.AddReceived` | src/ntb-network.c:1056-1150 | the arrival of an object, updating table, lists and counter in place |
| `Inventory.Network.RejectInventory` | src/ntb-network.c:1031-1054 | the rejection, in place |
| `Inventory.Network.HandleInvEvent` | src/ntb-network.c:875-897 | the loop over advertised hashes, in place |
| `Inventory.Network.CollectList` | src/ntb-network.c:1222-1272 | the garbage-collection loop, in place |
| `Inventory.Network.Disconnect` | src/ntb-network.c:351-384 | a peer's requests are given up, in place |
| `Peers.PickFinds` | src/ntb-network.c:514-533 | the second loop stops at an address that can be connected to exactly when the index is below the count |
| `Peers.PickAddr` | src/ntb-network.c:514-533 | the two loops pick an address that can be connected to whenever there is one |
| `Peers.RandomIndex` | src/ntb-network.c:526-528 | the random index is below the count exactly when the random number is not the largest |
| `Peers.ConnectKeeps` | src/ntb-network.c:465-539 | an outgoing connection keeps counters and addresses in agreement and at most 8 outgoing peers |
| `Peers.AcceptKeeps` | src/ntb-network.c:1415-1447 | an accepted connection keeps at most 9 incoming peers |
| `Peers.VersionKeeps` | src/ntb-network.c:744-830 | a version command lets a peer without an address take up a free one, and only such a one, and takes the handshake one step on |
| `Peers.RemovePeerKeeps` | src/ntb-network.c:351-384 | a removed peer gives up its address and its place in the counters |
| `Peers.EveryRun` | src/ntb-network.c:351-592 | in every run an address is connected exactly when one peer uses it, no address is used by two, the counters are the numbers they stand for, a peer is connected only after both its version and its verack, every listening socket is polled while there are fewer than 8 incoming peers and none while there are 9, and no assertion fails |
| `Peers.HandshakeFollows` | src/ntb-network.c:744-852 | in every run what a peer has said alone decides its state: it is connected exactly when it has said verack and later version, or, if it called, version and later verack; it is at the start exactly when it has not said the first |
| `Peers.DialEffect` | src/ntb-network.c:465-494 | a connection is made if and only if a peer is wanted and the socket allows it, and makes one new peer with that address |
| `Peers.CallEffect` | src/ntb-network.c:1415-1447 | a caller becomes one new peer without an address |
| `Peers.VersionEffect` | src/ntb-network.c:744-830 | the address a peer is found to have becomes its own if and only if it had none and no other peer uses it |
| `Peers.CloseEffect` | src/ntb-network.c:351-384 | after a peer has gone its address is free and each listening socket is polled if and only if fewer than 8 incoming peers are left |
| `Peers.IncomingReached` | src/ntb-network.c:437-463 | nine incoming peers can be reached, because the listening sockets are updated before the peer is counted |
| `Peers.Network.ConnectQueue` | src/ntb-network.c:496-539 | an address is dialled if and only if a peer is wanted and one of the addresses is free and can be connected to; it is such a one |
| `Peers.Network.ClosePeer` | src/ntb-network.c:351-384 | the removal of a peer, in place |
| `Peers.Network.FreeNetwork` | src/ntb-network.c:1705-1770 | after the loops over peers and addresses the three counters are zero and no assertion has failed |
| `StoreAgreement.NextKeeps` | src/ntb-store.c:1125-1198 | every step of keyring, network, startup and store thread keeps what is due on disk, and every content its messages' own unless it hands out an id in use for another |
| `StoreAgreement.NextKeepsOwnIff` | src/ntb-keyring.c:1815-1861 | a step leaves every message its own content if and only if it does not send under an id that is in use for another content |
| `StoreAgreement.AcknowledgeKeeps` | src/ntb-keyring.c:247-260 | the deletion of an acknowledged message's content keeps every content that a message left or a load under way still counts on |
| `StoreAgreement.AcknowledgedEffect` | src/ntb-keyring.c:247-260 | once the queue is worked off an acknowledged message's content is gone if and only if no message left has its id, and every other file is as it would have been |
| `StoreAgreement.GoneIff` | src/ntb-keyring.c:873-893 | so the content is absent exactly if it was before or its last message went |
| `StoreAgreement.SendEffect` | src/ntb-keyring.c:1815-1861 | a sent content will be in the file of its id, for as many messages as there are recipients, and no other file changes |
| `StoreAgreement.ObjectEffect` | src/ntb-network.c:1127-1262 | the file of an object that is added will be there, that of one that expires will not, and no other file changes |
| `StoreAgreement.OtherEffect` | src/ntb-store.c:1125-1198 | no other step changes what will be on disk: the worker only brings it about |
| `StoreAgreement.CleanUpKeeps` | src/ntb-store.c:1838-1913 | removing unused contents at startup, past the queue and while the store's thread works, leaves those in use |
| `StoreAgreement.CleanUpEffect` | src/ntb-store.c:1838-1913 | it removes exactly those it goes for and changes no other file |
| `StoreAgreement.EveryLoadFinds` | src/ntb-store.c:1257-1308 | in every run, from any disk, with the store's thread working from the beginning and whatever the counter for ids does, a load finds a file exactly if its content was not missing when it was asked for |
| `StoreAgreement.EveryLoadIsPreceded` | src/ntb-keyring.c:1674-1704 | for every queued load that counts on a file the last earlier save or delete of that name is a save, or there is none and the file is there |
| `StoreAgreement.Store.StoreThread` | src/ntb-store.c:1125-1198 | the worker's loop leaves the files after all queued work in order, and each load has found what was left by then |
| `StoreAgreement.AllLoadsFind` | src/ntb-store.c:1125-1198 | in every run, working off the queue, every load finds a file exactly if it counts on one |
| `ContentIds.CounterWraps` | src/ntb-keyring.c:1198-1199 | in every run the 64-bit counter has wrapped if and only if one more than the largest id read and the number of sends come to 2^64 or more; until then it is their sum and never the id of a live message |
| `ContentIds.EveryLoadGivesOwn` | src/ntb-keyring.c:1842-1858 | in every run in which that sum is at most 2^64 every load gives a message the content it was sent with, or that was on disk when it was restored |
| `ContentIds.IntIdsAreSafe` | src/ntb-keyring.c:1198-1199 | if the ids read are from 0 to INT_MAX, after fewer than 2^64 - 2^31 sends the next id is not that of a live message and every load gives its message's own content |
| `ContentIds.StartupFreshIff` | src/ntb-keyring.c:1189-1226 | at any moment of the startup the next id is not that of a restored message if and only if no record up to the last one with the id 2^64 - 1 has the id that follows the largest one behind it |
| `ContentIds.FileFreshIff` | src/ntb-store.c:1915-1955 | every file can be read, and leaves the next id fresh exactly under that condition on its records |
| `ContentIds.TwoRecordsCollide` | src/ntb-key-value.c:259-285 | a file with a record of id 0 and then one of id -1 sets the counter back to 0 while message 0 is live; the next message sent is saved over its content, which it then finds in place of its own |
| `Outgoings.LoadedIds` | src/ntb-load-outgoings.c:119-126 | every id read from any file is from 0 to INT_MAX or, for a negative number, from 2^63 to 2^64 - 1 |

## Left out

- Sockets, poll, files, directories, signals, fork and command lines: represented only by nondeterministic inputs.
- OpenSSL hashes, elliptic curves, ciphers and big-number internals: an arbitrary hash function and `nat` stand for them.
- The cookie queue of src/ntb-crypto.c: a weaker twin of the proof-of-work protocol.
- The layout of pubkey objects and their signatures: only the message layout is modelled.
- Slab allocators, the growth of buffers other than that for encoded words, and intrusive list pointers: lists are sequences and objects are named by numbers.
- The IPC server and client, key generation, sendmail and the daemon: thin wrappers around what is modelled.
- Logging, DNS bootstrap and dates: little state.
- Content types in the mail parser: whether a content type is accepted is a parameter.
- MailText.MailDelivers: does not say which lists of addresses are malformed and does not cover shortened names of known headers, which the parser takes for them; ParseAddresses.Parser.Run and MailParser.ParsePieces cover those mails too.
- The addr command: split and reassembled like the hash commands, with another limit.
- Keyring: messages are values in a map, named in the order of their list, so that pointers to one message from several places are not captured; the lists of keys and of the work for incoming messages are left out.
- Peers: which addresses are old or may be dialled is a choice of the step, because the clock is.
- StoreAgreement: saving always succeeds. Loads queued by connections are not covered, because an object may expire before its turn.
- EncodedWords.DecodeInPlace: the octets of a word are kept even where a piece overruns the decoding buffer; what the C program does then is not modelled, only exactly when it happens.
- Node.EveryRunSafe: how a pubkey object is parsed is a parameter, and that an encrypted message is never as short as 32 octets is a condition on what the node posts.
- PowScheduler: every step is what one thread does while it holds the lock; memory ordering outside the lock is not modelled.
- Inventory.GcAll: which inventories are too old is a parameter, because the clock is.
- SendQueue.Drained: assumes that loads succeed, as the source does.
- SaveMessage.SubjectRoundTrip: what the C program does with a subject of more than 32 octets, whose first word overruns the decoding buffer, is not modelled.
- Outgoings.WriteOutgoing: does not cover errors of the file system.

# Verified models of the crawler's common library

The crawler keeps its algorithms under `common/`. This project models the ones with an invariant worth
stating, in the form they have in the code (methods that change fields, arrays and links in place, with
loops), proves each against a specification function, and proves about that function what the code is for.

| files | component | main results |
|---|---|---|
| `http_*.dfy` | the streaming HTTP parser | one call equals the byte-by-byte run; results do not depend on how the input is cut up; printed messages are reported as they were written |
| `ut_lists`, `ut_chains`, `ut_expand`, `uthash`, `ut_calls`, `ut_merge`, `ut_sort` | uthash | two doubly linked lists through every element, power-of-two growth, agreement with a plain map, a stable merge sort on the links |
| `bit_packing`, `lzw`, `lzw_phrases`, `rle` | the codecs of celib | the longest phrases that LZW codes, and the exact condition for its round trip; the RLE round trip with a bound |
| `datrie` | the double-array trie | the build from sorted keys succeeds, lookups agree with the dictionary |
| `kmp` | substring search | first and last occurrence with the optimised failure table |
| `json_*` | cJSON | the texts that the parser takes, and what they stand for; print and parse are inverse |
| `md5` | streaming MD5 | the digest is that of the padded message, however it was cut up |
| `simple_queue` | the bounded queue | order, capacity, wake-ups and conservation in every interleaving |
| `common` | what several models need | |
| `cel_sort`, `cel_math`, `cel_chains`, `cel_hashmap` | celib | sorted permutations, growth to a next prime, agreement with a plain map |

## How the parts fit together

*HTTP.* `HttpStep.Step` is the transition for one byte, and `HttpRun.Feed` the run over many. The class
`HttpParserImpl.HttpParser` has the fields of the C structure, a map for the mark pointers and a log of
callbacks; `Execute` is the switch of the C function with its bulk jumps. Its contract equates the fields
after a call with `Feed`. Adjacent data callbacks of the same kind are joined in the log (`Log`), so that two
runs can be compared whatever pieces their text came in. Three behaviours worth knowing came out of this. A
parser for responses takes every CR or LF before a response for the beginning of a message, so a response is
reported to begin once if and only if its text starts with neither (`BeginsOnceIff`, with the input in
`EmptyLineBegins`); a parser for requests passes over them (`RequestAfterBreaks`). Bytes from 128 on count as
the digit 0 anywhere in a chunk size, because the digit table initialises only half of its entries, so an accepted
size is one of hex digits if and only if it has no such byte (`SizeIsHexIff`). And a header value that goes on over
a further line loses its meaning: a folded "chunked" or "close" sets no flag (`HeaderMeaning`, `LineMeaning`).

*uthash.* `UtLists` and `UtChains` describe pointers as maps from elements to elements; the methods of
`UtHash.HashTable` show that the writes they make are those map updates. `Valid` is what `HASH_FSCK` checks,
and in addition that each element hangs in the bucket of its hash value and that keys differ.

*Sorts.* The merge of uthash takes the left element when two compare equal and is stable; the one of celib
takes the right one and is not, so the two have merge functions of their own.

*Messages.* `HttpBody` and `HttpRoundTrip` print and parse whole messages: `RoundTrip` for one, `SeriesRoundTrip`
for many on one connection, `InPieces` and `HttpDriver.Receive` for the same in any pieces.

*JSON.* `JsonGrammar` has the texts of RFC 8259 as syntax trees, with what the code takes besides: leading zeros,
missing digits, stray halves of UTF-16 pairs, any character behind a backslash, and a string that only the end of the
text ends. `JsonValues` proves that the parser reads these texts and no others; what is printed is one of them.

*Where the code falls short of its name.* `cel_is_prime` takes squares of odd primes for primes (its scan stops
before the square root), so the table of the hash map may get such a length, which does no harm to it. The LZW
codec loses text with a zero byte and most text with a byte 255. The loop of `MD5Update` never ends on an input
whose last block ends within 64 bytes of 2^32. For these the exact condition is proved, with an input that shows
it. The LZW decoder has room for the keys of 745 codes, which is proved as well.

## Model

| member | source | states |
|---|---|---|
| `HttpParserImpl.HttpParser.constructor` | common/http_parser/http_parser.c:1974-1982 | A new parser is in the start state of its kind, all its counts and flags are zero, and no callback has been called. |
| `HttpParserImpl.HttpParser.Execute` | common/http_parser/http_parser.c:576-1920 | One call over any bytes, from any state a run can reach, also after an error or an upgrade: the fields afterwards, the count of consumed bytes and the callbacks are those of the bytes taken one at a time through the step function, although the code skips over body bytes in bulk and reports text from marks into the buffer; after an error the bytes of the field under way are not reported. A call with no bytes is the end of the connection. All asserts of the C code are asserted in the body. |
| `HttpDriver.ExecuteAll` | common/http_parser/http_parser.c:576-1920 | A connection that arrives in any non-empty pieces, fed call by call until an error or an upgrade: fields, consumed bytes and callbacks are a function of the concatenation alone. |
| `HttpDriver.Receive` | common/http_parser/http_parser.c:576-1920 | A connection from its first byte to its end, through the parser as it runs: responses or requests that arrive in any non-empty pieces are reported as they were written. |
| `HttpSplit.CallsIsFeed` | common/http_parser/http_parser.c:576-1920 | A sequence of calls, as a driver makes them, is one run over the concatenated bytes. |
| `HttpSplit.SplitInvariance` | common/http_parser/http_parser.c:576-1920 | Two divisions of the same bytes end in the same parser fields and errno, the same consumed count, and the same callbacks with the same text; in a run that ends in an error the text of the field under way, which the code then drops, is not one that the callbacks have had. |
| `HttpSplit.SplitWithoutStopping` | common/http_parser/http_parser.c:1674-1715 | A caller that goes on after an upgrade gets the result of one call exactly when the first part did not stop the parser or nothing follows. |
| `HttpRun.FeedSplit` | common/http_parser/http_parser.c:576-1920 | Running over a concatenation is running over its parts in turn. |
| `HttpRun.InitInv` | common/http_parser/http_parser.c:1974-1982 | The invariant of the parser holds at the start. |
| `HttpRun.TurnKeeps` | common/http_parser/http_parser.c:576-1920 | Every byte that makes no error keeps the invariant: nread is 1 at the start of each chunk size line, the chunked flag is set in all chunk states, the remaining length is neither 0 nor the sentinel in body states, and the header state is one that the state handles. |
| `HttpRun.FeedKeeps` | common/http_parser/http_parser.c:576-1920 | So does every run; one without error that began without upgrade has stopped exactly when upgrade is set, and none consumes more than it was given. |
| `HttpRun.ScaledIsExact` | common/http_parser/http_parser.c:1500-1523 | The guard before the multiplication is enough: the new length is the exact product and sum, below the sentinel. |
| `HttpBulk.BulkIsFeed` | common/http_parser/http_parser.c:1717-1763 | Skipping over as many body bytes as are there, in one step, is taking them one at a time, for bodies of known length and for chunk data. |
| `HttpBulk.EofBulkIsFeed` | common/http_parser/http_parser.c:1745-1752 | The same for a body that ends with the connection. |
| `HttpFields.NameRecognized` | common/http_parser/http_parser.c:1227-1405 | A header name is recognized if and only if its lowercase form is one of the five names, although it is matched letter by letter against guesses. |
| `HttpFields.ChunkedRecognized` | common/http_parser/http_parser.c:1474-1569 | After any part of a Transfer-Encoding value the matching state says exactly whether the lowercase value is chunked so far. |
| `HttpFields.ConnectionRecognized` | common/http_parser/http_parser.c:1474-1569 | The same for the two words of a Connection value, of which the first letter selects one. |
| `HttpFields.FlagsRecognized` | common/http_parser/http_parser.c:1571-1624 | The flags set at the end of a header are exactly those its value spells in full. |
| `HttpFields.LengthIsExact` | common/http_parser/http_parser.c:1500-1523 | A Content-Length value is accepted if and only if it is decimal and within the bound of the code, and then the length is its exact value, never wrapped and never the sentinel. |
| `HttpClasses.TokenIff` | common/http_parser/http_parser.c:145-178 | The bytes of a header name are the visible ASCII characters that are no separators (section 2.2 of RFC 2616). |
| `HttpClasses.NamesInAnyCase` | common/http_parser/http_parser.c:1227-1405 | So the five names that matter are taken for field names in any case, and are told from each other. |
| `HttpClasses.WordsInAnyCase` | common/http_parser/http_parser.c:1474-1624 | The words of values count in any case, with any spaces after them. |
| `HttpClasses.DecimalIsRead` | common/http_parser/http_parser.c:1500-1523 | A number written in decimal is read as that number. |
| `HttpClasses.HexIsRead` | common/http_parser/http_parser.c:1765-1820 | A number written in hexadecimal is read as that number. |
| `HttpErrors.RefusedIs` | common/http_parser/http_parser.c:576-1920 | For every state that a run can be in and every byte: whether the byte is refused, and with which error, state by state; outside the bodies the 81921st byte of the headers is one too many. |
| `HttpErrors.EofRefused` | common/http_parser/http_parser.c:595-614 | The call without bytes is an error, and changes nothing else, except between messages and in a body that it ends. |
| `HttpMessage.LineMeaning` | common/http_parser/http_parser.c:1227-1672 | The lasting effect of one header line on the parser is its meaning, flags and length and nothing else: an empty value means nothing, and of a value folded over lines, or begun on the line after a name without a colon, only Upgrade is left. |
| `HttpMessage.LineRun` | common/http_parser/http_parser.c:1227-1672 | The bytes of a header line, with a value that may be empty or folded over any number of lines or, like the colon, not there at all, and with lines ended by CRLF or LF, are reported as its name and its value, and leave the parser ready for the next line. |
| `HttpFraming.AfterMeaning` | common/http_parser/http_parser.c:1227-1672 | The effect of a list of header lines is the fold of their meanings. |
| `HttpFraming.LinesRun` | common/http_parser/http_parser.c:1227-1672 | A list of such lines is reported header by header, whatever follows. |
| `HttpFraming.SizedRun` | common/http_parser/http_parser.c:1674-1763 | After the headers, a body of the announced length is reported as it is and completes the message once. |
| `HttpFraming.NeedsEofIff` | common/http_parser/http_parser.c:1925-1944 | A message lasts to the end of the connection if and only if it is a response, its code is none of 100 to 199, 204 and 304, it announces neither chunks nor a length, and its body is not to be skipped. |
| `HttpFraming.ToEofRun` | common/http_parser/http_parser.c:1674-1763 | A body without a length is reported up to the end of the connection, and the call without bytes then completes the message. |
| `HttpFraming.SizeIsExact` | common/http_parser/http_parser.c:1765-1820 | A chunk size is accepted if and only if its value is within the bound of the code, and then it is the exact value of its hex digits. |
| `HttpFraming.SizeAccepted` | common/http_parser/http_parser.c:1765-1820 | Any bytes in the place of a chunk size are accepted if and only if the table has each of them as a digit and their value is within the bound. |
| `HttpFraming.SizeIsHexIff` | common/http_parser/http_parser.c:180-189 | The digit table leaves its upper half zero: over whole sizes, every byte from 128 on counts as the digit 0 wherever it stands, and an accepted size is one of hex digits if and only if it has no such byte. |
| `HttpFraming.HighSizeIsRead` | common/http_parser/http_parser.c:180-189 | A size that shows it: one byte that is no hex digit, read as the size 0. |
| `HttpFraming.ChunksRun` | common/http_parser/http_parser.c:1765-1881 | Any list of chunks with data is reported as one body, their concatenation. |
| `HttpFraming.ChunkedRun` | common/http_parser/http_parser.c:1765-1881 | A chunked coding with its last chunk and trailing headers (section 3.6.1 of RFC 2616): the body is the concatenation of the chunks, the trailers are reported after it, and the message completes exactly once. |
| `HttpStartLine.StatusRun` | common/http_parser/http_parser.c:712-905 | A status line, with any number of spaces before the code and with a reason phrase, an empty one or none: version and code reach the fields, the reason phrase the callback. |
| `HttpRequest.MethodRecognized` | common/http_parser/http_parser.c:908-1030 | A word and a space are taken for a method if and only if the word is its name, although the parser guesses from the first letter and corrects the guess. |
| `HttpRequest.MethodNames` | common/http_parser/http_parser.h:88-121 | The names of all methods, spelled out, and no two methods share one. |
| `HttpRequest.UrlIff` | common/http_parser/http_parser.c:428-572 | The states of the URL scanner end well if and only if the URL is one of the grammar: a host for CONNECT, else a path, an asterisk or an absolute URL, in which no two at signs are side by side before the path. |
| `HttpRequest.WholeUrlRun` | common/http_parser/http_parser.c:1032-1116 | A URL and the space after it are reported as they are if the URL is of that grammar, and are an invalid URL if it is not. |
| `HttpRequest.RequestLineRun` | common/http_parser/http_parser.c:908-1226 | A request line with any method and any URL of the grammar, with any number of spaces between its parts and with a version or, for HTTP/0.9, without one: method and version reach the fields, the URL the callback. |
| `HttpBody.NewMessageIs` | common/http_parser/http_parser.c:1948-1963 | The state for what comes next: the first one if version and flags keep the connection open and no body lasts to its end, else one in which nothing may follow. |
| `HttpBody.RestRun` | common/http_parser/http_parser.c:1227-1920 | After a start line, whose record has neither flags nor length: headers, empty line and body are reported in order. The status code, the headers and the answer of the callback together decide what body there is: none, one of the announced length, chunks, or all bytes to the end of the connection. The flags, the count of header bytes and the state that remain are those said. |
| `HttpBody.BareEndRun` | common/http_parser/http_parser.c:1626-1715 | A message that changes the protocol, and one whose body the callback asks to skip, is complete right after its headers; the call returns early for the first only. |
| `HttpRoundTrip.RoundTrip` | common/http_parser/http_parser.c:576-1920 | Parsing the text of a response or a request, with a body that is sized, chunked, ended by the connection, skipped by the callback or absent, or with an upgrade, reports its parts in order, with one beginning and one completion; version, code or method, the header bytes still counted, and the state that decides whether another message can follow are in the record. |
| `HttpRoundTrip.SeriesRoundTrip` | common/http_parser/http_parser.c:576-1920 | Any number of messages on a connection that stays open: they are reported one after the other, and the last may end with the connection. |
| `HttpRoundTrip.InPieces` | common/http_parser/http_parser.c:576-1920 | The same for messages that arrive in any pieces; if every header line brings a value, the callbacks are just the events of the messages as written. |
| `HttpRoundTrip.BeginningsBefore` | common/http_parser/http_parser.c:712-734 | Line breaks before a response: one beginning is reported for each of their bytes, and one for the response. |
| `HttpRoundTrip.BeginsOnceIff` | common/http_parser/http_parser.c:712-734 | So a response after any line breaks or none is reported to begin once if and only if the first byte of all is neither CR nor LF. |
| `HttpRoundTrip.EmptyLineBegins` | common/http_parser/http_parser.c:712-734 | The input that shows it: after an empty line a response has three beginnings. |
| `HttpRoundTrip.RequestAfterBreaks` | common/http_parser/http_parser.c:908-911 | Line breaks before a request change nothing that is reported. |
| `HttpRoundTrip.PageIsReported` | common/http_parser/http_parser.c:1674-1763 | The ordinary page: what follows the headers of a response 200 without a length is its body, up to the end of the connection. |
| `HttpBoth.BothIs` | common/http_parser/http_parser.c:675-710 | A parser that is to find out by itself runs, from its second byte on at the latest, as one for responses after HT, as one for requests after HE or any other first byte, and refuses anything else. |
| `HttpBoth.EitherRoundTrip` | common/http_parser/http_parser.c:675-710 | So it reports any response or request as it was written, with or without line breaks before it. |
| `BitPacking.Pack` | common/celib-1.0/src/cel_compress.c:330-354 | The loop puts out the bytes of exactly the concatenated code words, each in the width its position calls for, padded with zeros to a byte. |
| `BitPacking.Unpack` | common/celib-1.0/src/cel_compress.c:387-400 | The loop reads exactly the codes that the bits of its input spell, in the same widths. |
| `BitPacking.WidthIsLeast` | common/celib-1.0/src/cel_compress.c:330-354 | The width for a code is the least that holds every value possible at its position. |
| `BitPacking.UnpackPacked` | common/celib-1.0/src/cel_compress.c:330-400 | For any codes of which the k-th is below 256 + k, unpacking the packed bytes gives exactly these codes: the padding never makes one more. |
| `Lzw.EncodeCodes` | common/celib-1.0/src/cel_compress.c:283-329 | The dictionary loop of the encoder puts out the codes of the recursive definition. |
| `Lzw.DecodeCodes` | common/celib-1.0/src/cel_compress.c:403-453 | The loop of the decoder, with the case of a code it does not know yet, puts out what the recursive definition does. |
| `Lzw.EncodeBelow` | common/celib-1.0/src/cel_compress.c:283-329 | The k-th code is always below 256 + k. |
| `LzwPhrases.CodesIff` | common/celib-1.0/src/cel_compress.c:283-329 | For text without a zero byte: the codes are those of phrases that make up the text, where each is a byte, or an earlier phrase and the first byte of the one after it, with the code that this place has, and no phrase could be longer by one byte. There is just one way to cut a text like that, so the codes of the encoder are exactly the ones described. |
| `LzwPhrases.CodesArePhrases` | common/celib-1.0/src/cel_compress.c:283-329 | The encoder finds these phrases. |
| `LzwPhrases.RepeatsAreShort` | common/celib-1.0/src/cel_compress.c:283-329 | The text aaaa is coded as 97, 256, 97. |
| `LzwPhrases.DecodedIs` | common/celib-1.0/src/cel_compress.c:403-453 | For any codes, also such as no encoder writes: each stands for a byte, for an earlier entry and the first byte of the one after it, or, if it comes too early, for the entry before it and its own first byte; the zero stands for nothing, and 255 for itself in the first place only. |
| `Lzw.EncodeFits` | common/celib-1.0/src/cel_compress.c:283-354 | So every code sequence of the encoder is one that the packing carries. |
| `Lzw.EntryIsPhrase` | common/celib-1.0/src/cel_compress.c:403-453 | While the two dictionaries are in step, a known entry of the decoder is the phrase of the encoder with that code. |
| `Lzw.DecodeFollows` | common/celib-1.0/src/cel_compress.c:403-453 | From any point where the decoder is one entry behind, decoding the rest of the codes gives the rest of the text; the one missing entry is the previous phrase and its first byte. |
| `Lzw.SafeReturns` | common/celib-1.0/src/cel_compress.c:283-453 | Text without a zero, and without a byte 255 after a different first byte, comes back. |
| `Lzw.UnsafeIsLost` | common/celib-1.0/src/cel_compress.c:421-448 | All other text does not: the decoder overwrites its entry 255 at the first code, and dictionary keys end at a zero. |
| `Lzw.RoundTripIff` | common/celib-1.0/src/cel_compress.c:283-453 | The round trip on codes holds if and only if the text has no zero byte and is empty, starts with 255, or has no 255. |
| `Lzw.HighByteIsLost` | common/celib-1.0/src/cel_compress.c:421-448 | A text of two bytes that does not come back. |
| `Lzw.KeysFitIff` | common/celib-1.0/src/cel_compress.c:380-446 | For the codes of any text, the decimal keys stay within the buffer of the decoder, which has the size of an int, if and only if there are at most 745 codes. |
| `Lzw.ShortTextFits` | common/celib-1.0/src/cel_compress.c:283-446 | So they do for every text of at most 745 bytes. |
| `Lzw.BitsFit` | common/celib-1.0/src/cel_compress.c:330-400 | And the bits that wait in the buffers of packing and unpacking, with those of one code, fit an int for that many codes and far more. |
| `Lzw.CodecRoundTrip` | common/celib-1.0/src/cel_compress.c:283-453 | The same for the two entry points with the bit packing between them. |
| `Lzw.EncodeDecode` | common/celib-1.0/src/cel_compress.c:283-461 | The two entry points one after the other: the string comes back if and only if it is one of those. |
| `Rle.NextLeast3Repeat` | common/celib-1.0/src/cel_compress.c:31-57 | The index is that of the first place with three equal bytes in a row, and the length that of the run from there, up to 127; -1 exactly when there is no such place. |
| `Rle.Encode` | common/celib-1.0/src/cel_compress.c:67-128 | The code is that of the packets of the plan of the input. |
| `Rle.CodeIff` | common/celib-1.0/src/cel_compress.c:67-128 | That code byte by byte, and no other: where three equal bytes begin, their number and 128, and the byte, for all of them up to 127; elsewhere the number of bytes before the next three equal ones, up to 127, and these bytes. |
| `Rle.Decode` | common/celib-1.0/src/cel_compress.c:136-162 | On a code in which no packet is cut short, the output is what the packets stand for. |
| `Rle.DecodedWires` | common/celib-1.0/src/cel_compress.c:136-162 | Any list of packets is decoded to what it means, also lists that the encoder never puts out. |
| `Rle.DecodedIff` | common/celib-1.0/src/cel_compress.c:136-162 | A code is decoded if and only if it is a list of whole packets, and then to what they mean. |
| `Rle.RoundTrip` | common/celib-1.0/src/cel_compress.c:67-162 | For every byte string, repeats in the plan cover 3 to 127 bytes, literals 1 to 127, and decoding the code gives the string back. |
| `Rle.SizeBound` | common/celib-1.0/src/cel_compress.c:67-128 | The code is longer than the input by at most one byte in 127, rounded up. |
| `Rle.EncodeDecode` | common/celib-1.0/src/cel_compress.c:67-162 | The two entry points one after the other: the same bytes come back, from a code within the bound. |
| `UtLists.WithoutLinked` | common/hashtable/include/uthash.h:227-241 | Pointing the neighbours of an element past it unlinks it from a doubly linked list and leaves the rest in order. |
| `UtChains.PushKeeps` | common/hashtable/include/uthash.h:611-616 | An element put in front of one bucket keeps the lists of all buckets well linked. |
| `UtChains.DropKeeps` | common/hashtable/include/uthash.h:625-635 | So does an element taken out of its bucket, at either end or between. |
| `UtHash.HashTable.Add` | common/hashtable/include/uthash.h:173-196 | A new key: the element is last in application order, the table as a map has one entry more, and the whole invariant holds, whether or not the buckets were doubled; the first element comes with 32 buckets. |
| `UtHash.HashTable.AddToBkt` | common/hashtable/include/uthash.h:611-622 | The number of buckets doubles exactly when the bucket reaches its threshold, ten times its factor and one, and expansion is not inhibited; else the element is at the front of its bucket and no other has changed. |
| `UtHash.HashTable.Find` | common/hashtable/include/uthash.h:94-105 | The result is the element that the plain map has for the key, and NULL exactly when it has none. |
| `UtHash.HashTable.Delete` | common/hashtable/include/uthash.h:215-248 | The element leaves both lists, the order of the others stays, and the map loses exactly its key; the last element takes the table with it. |
| `UtHash.HashTable.Replace` | common/hashtable/include/uthash.h:163-171 | The map has the new element for the key, and the one it replaces is returned. |
| `UtHash.HashTable.ExpandBuckets` | common/hashtable/include/uthash.h:666-712 | After doubling every chain is the elements of its old chain that belong to it, last one first; the ideal length is the ceiling of items by buckets, nonideal_items the sum of what exceeds it, each threshold factor the quotient, and expansion is inhibited exactly after two ineffective ones in a row. |
| `UtExpand.MoveStep` | common/hashtable/include/uthash.h:686-700 | One round of the inner loop keeps all of this, for any state of the loops. |
| `UtExpand.SlotIsMask` | common/hashtable/include/uthash.h:198-201 | The bucket is the hash value and the mask of the number of buckets, bit by bit. |
| `UtExpand.SlotOrigin` | common/hashtable/include/uthash.h:198-201 | An element of a new bucket comes from the old bucket with the same number, or with that number less the old count. |
| `UtExpand.CeilIsLeast` | common/hashtable/include/uthash.h:659-664 | The ideal length is the least length with which that many chains hold all items. |
| `UtHash.IdealIsCeil` | common/hashtable/include/uthash.h:676-678 | The shift and the mask of the code compute that ceiling, for a power of two. |
| `UtHash.HashTable.CountsAddUp` | common/hashtable/include/uthash.h:278-328 | On a valid table the lengths of all chains add up to the number of items. |
| `UtCalls.Perform` | common/hashtable/include/uthash.h:94-248 | Any sequence of additions of keys that are not there, replacements, deletions of elements that are found and sorts, with any doublings in between, keeps everything HASH_FSCK checks and agrees with a plain map. |
| `UtHash.HashTable.Fsck` | common/hashtable/include/uthash.h:278-328 | The check of the authors, as it runs, on any table whose next pointers lead to an end: it complains if and only if a back pointer or a count is wrong. |
| `UtHash.HashTable.ValidIsSound` | common/hashtable/include/uthash.h:278-328 | On a valid table it has nothing to complain of. |
| `UtSort.Sort` | common/hashtable/include/uthash.h:719-804 | The application order is sorted in place and is the result of bottom-up merging; it is a permutation, in order and stable for any comparison that orders the elements; prev, next, head and tail are right, and no bucket is touched. |
| `UtSort.SortPass` | common/hashtable/include/uthash.h:727-801 | One pass relinks the list into the merge of neighbouring runs, and one merge was enough exactly when the list is no longer than two runs. |
| `UtSort.MergeRuns` | common/hashtable/include/uthash.h:743-790 | The merge loop follows next pointers that it overwrites behind itself, and still puts out exactly the merge of the two runs. |
| `UtMerge.MergeClass` | common/hashtable/include/uthash.h:757-790 | A merge keeps the order of elements that compare equal, those of the first run first. |
| `UtMerge.SortIsStable` | common/hashtable/include/uthash.h:719-804 | Bottom-up merging of any list ends in order, is a permutation, and keeps the order of elements that compare equal. |
| `Datrie.Dat.Build` | common/datrie/datrie.c:189-212 | For every strictly ascending dictionary of keys of 1 to 32 bytes the build succeeds, no assertion fails, and the nodes are exactly those of the prefixes of keys. |
| `Datrie.Load` | common/datrie/datrie.c:71-212 | A dictionary added entry by entry and built is ready for the lookups of Get. |
| `Datrie.LessIff` | common/datrie/datrie.c:148-157 | The order of the keys: the first byte that differs decides, and a string is above its proper prefixes. |
| `Datrie.Dat.AddInternal` | common/datrie/datrie.c:128-168 | One entry at one level: the assertions on parent, check and the monotone node count hold, there is room, and the invariant goes on to the next entry. |
| `Datrie.Dat.Get` | common/datrie/datrie.c:170-187 | A lookup succeeds exactly for the non-empty prefixes of keys, with the value of a key and 0 for a prefix that is none. |
| `Datrie.Dat.GetInternal` | common/datrie/datrie.c:105-126 | The walk finds the node of a prefix exactly when it has one. |
| `Datrie.Dat.Grow` | common/datrie/datrie.c:48-69 | Afterwards there is room for a child of any node, no node has changed, and the array is the least number of whole blocks that has the room, or as large as it was. |
| `Datrie.StepIff` | common/datrie/datrie.c:113-124 | The test on base and check lets a byte through exactly when the prefix has that child. |
| `Datrie.ChildIsFresh` | common/datrie/datrie.c:148-157 | A child not there yet lies behind all nodes so far: the slot allocation is monotone because the keys are sorted. |
| `Datrie.OwnNode` | common/datrie/datrie.c:128-168 | No two prefixes share a node. |
| `Datrie.NewTrie` | common/datrie/datrie.c:136-163 | A new child keeps every node, base, value and free slot as they have to be. |
| `Datrie.NewValue` | common/datrie/datrie.c:162-163 | The value stored with a new node is that of its prefix as a key, or 0. |
| `Kmp.BuildTable` | common/hashtable/include/utstring.h:156-192 | The table holds, for each number of matched bytes, the longest border whose next byte differs, or -1. |
| `Kmp.FailIs` | common/hashtable/include/utstring.h:156-192 | What such an entry is: the longest beginning that is also an end of the matched bytes, and that has another byte behind it than they have; -1 if there is none. |
| `Kmp.BuildTableR` | common/hashtable/include/utstring.h:196-232 | The reverse table is that of the reversed needle, counted from the other end. |
| `Kmp.FallBack` | common/hashtable/include/utstring.h:169-172 | A step along the optimised table skips no border that could be prolonged. |
| `Kmp.EntryIs` | common/hashtable/include/utstring.h:173-189 | The entry follows from the longest border and the entry of that. |
| `Kmp.Skip` | common/hashtable/include/utstring.h:251-254 | A step along the table skips no occurrence. |
| `Kmp.FindFirst` | common/hashtable/include/utstring.h:236-265 | The first occurrence, or -1 when there is none, with no more steps along the table than bytes of text. |
| `Kmp.FindLast` | common/hashtable/include/utstring.h:269-299 | The last occurrence, or -1 when there is none, within the same bound. |
| `Kmp.OccursReversed` | common/hashtable/include/utstring.h:269-299 | An occurrence is one of the reversed needle in the reversed text. |
| `Kmp.Find` | common/hashtable/include/utstring.h:303-346 | The first occurrence from a position on, counted from the end if negative; -1 exactly for an empty needle or none. |
| `Kmp.FindR` | common/hashtable/include/utstring.h:349-387 | The last occurrence that ends at a position or before it. |
| `JsonValues.AcceptedIff` | common/cJSON/cJSON.cc:96-427 | The parser reads a text to its end as a value if and only if the text is of the grammar of RFC 8259, or of the few forms that the code takes besides, and stands for that value: any white space, any spelling of numbers, any escapes, any depth. |
| `JsonValues.ValueRead` | common/cJSON/cJSON.cc:275-287 | A text of the grammar is read as what it stands for at any place, if nothing follows that could belong to a number. |
| `JsonValues.ValueFound` | common/cJSON/cJSON.cc:275-287 | Whatever is read, at any place, is a text of the grammar that stands for what it is read as. |
| `JsonRoundTrip.RoundTrip` | common/cJSON/cJSON.cc:268-495 | For every tree of null, booleans, 32-bit integers, strings without a zero byte, arrays and objects, parsing what either form of print wrote gives the tree back and stops at the end of the text, whatever follows that is no part of a number. |
| `JsonText.IsIntIff` | common/cJSON/cJSON.cc:119-135 | The numbers that the model prints are the integers of 32 bits. |
| `JsonRoundTrip.ValueRead` | common/cJSON/cJSON.cc:275-495 | The same at any place of a text and any depth. |
| `JsonRoundTrip.ValueWritten` | common/cJSON/cJSON.cc:290-495 | What is printed is the text of the grammar with the line breaks, tabs and spaces of the form, and it stands for the value. |
| `JsonAccept.NumeralRead` | common/cJSON/cJSON.cc:96-116 | A number is read as the decimal value of its sign, its digits before and behind the point and its exponent, each place with its weight. |
| `JsonAccept.QuotedRead` | common/cJSON/cJSON.cc:143-200 | A string is read as the bytes of its characters, which may be plain, escaped, or coded by one or two groups of hex digits in either case. |
| `JsonGrammar.Utf8Iff` | common/cJSON/cJSON.cc:179-187 | The bytes of a code point are its UTF-8 coding, the lead byte, the continuing bytes and the shortest form as section 3 of RFC 3629 has them, and no others. |
| `JsonValues.CodesRead` | common/cJSON/cJSON.cc:166-188 | A string in which each code point is written as one code of four hex digits or as the codes of its two halves, in either case of the digits, is read as the UTF-8 coding of the code points. |
| `JsonValues.CodeOfExists` | common/cJSON/cJSON.cc:166-188 | Every code point but zero and the halves can be written so, in small digits and in capitals. |
| `JsonValues.CodeInput` | common/cJSON/cJSON.cc:166-188 | A code that shows it: u4e2D is read as E4 B8 AD. |
| `JsonAccept.ScaledIs` | common/cJSON/cJSON.cc:96-116 | The number that the code computes from all digits, their scale and the exponent is the decimal value. |
| `JsonValues.ItemsRead` | common/cJSON/cJSON.cc:308-333 | The items of an array, from any of them on. |
| `JsonValues.MembersRead` | common/cJSON/cJSON.cc:394-427 | The members of an object, from any of them on. |
| `JsonParser.ReadValue` | common/cJSON/cJSON.cc:275-287 | The parser as it runs, on any text: the value or failure, and the end position, that the functional parser gives. |
| `JsonParser.ReadNumber` | common/cJSON/cJSON.cc:96-116 | The loops over digits, fraction and exponent compute the number of the functional parser, for any text. |
| `JsonParser.ReadString` | common/cJSON/cJSON.cc:143-200 | The loop over characters and escapes, with UTF-16 pairs, for any text. |
| `JsonParser.ReadArray` | common/cJSON/cJSON.cc:308-333 | The loop over items. |
| `JsonParser.ReadObject` | common/cJSON/cJSON.cc:394-427 | The loop over members. |
| `JsonParser.WriteValue` | common/cJSON/cJSON.cc:290-306 | The printer as it runs writes the text of the value. |
| `JsonParser.WriteString` | common/cJSON/cJSON.cc:203-236 | The escaping loop. |
| `JsonParser.WriteArray` | common/cJSON/cJSON.cc:336-391 | Items printed first and joined after. |
| `JsonParser.WriteObject` | common/cJSON/cJSON.cc:430-495 | Names and values printed first and joined after, with the tabs and line breaks of the formatted form. |
| `JsonParser.PrintAndParse` | common/cJSON/cJSON.cc:268-495 | The printer and the parser one after the other give the value back. |
| `Md5.Context.Update` | common/md5/md5.c:49-72 | However a message is cut up, the state is the fold of the block function over its full blocks, the buffer holds the rest, and the two words count its bits modulo 2^64. |
| `Md5.Context.Final` | common/md5/md5.c:73-83 | The digest is the four words of the state, each with its low byte first, after the whole padded message: the message, the byte 80, zeros up to 56 bytes modulo 64, and the length in bits modulo 2^64 with its low byte first (sections 3.1 and 3.2 of RFC 1321). |
| `Md5.Digest` | common/md5/md5.c:40-83 | Any sequence of updates, each of which the loop of MD5Update comes to an end on, and the end: the digest is that of the concatenation, padded in this way. |
| `Md5.InitBytes` | common/md5/md5.c:43-46 | The bytes of the four words to begin with are those that section 3.3 of RFC 1321 lists. |
| `Md5.WordBytes` | common/md5/md5.c:84-96 | Every word is the number of its four bytes, each with 256 times the weight of the one before. |
| `Md5.PaddedIff` | common/md5/md5.c:73-82 | The padded message, byte by byte, is the only one that the sections describe. |
| `Md5.FoldOne` | common/md5/md5.c:61-65 | One block is folded in by one call of the block function. |
| `Md5.CountAdds` | common/md5/md5.c:54-57 | The carry of the two counter words is right for every length of 32 bits. |
| `Md5.IndexWraps` | common/md5/md5.c:63 | The 32-bit sum in the loop condition fails to end the loop exactly when the last block ends within 64 bytes of 2^32. |
| `Md5.LoopNeverEndsIff` | common/md5/md5.c:63 | And the loop goes on for ever exactly then: the condition holds at every index it can reach. |
| `Md5.LongestNeverEnds` | common/md5/md5.c:63 | An input that shows it: the longest one for a new context. |
| `Md5.PadLengthIsLeast` | common/md5/md5.c:78 | The padding is the least one with at least one byte that leaves room for the length. |
| `Md5.FoldConcat` | common/md5/md5.c:59-66 | Full blocks can be folded in before what follows. |
| `Md5.DecodeEncode` | common/md5/md5.c:84-109 | Decoding the bytes of words gives the words back. |
| `SimpleQueue.StepKeeps` | common/utils/simple_queue.h:17-84 | Every step of every thread keeps order, capacity and the count that no wake-up is lost, spurious wake-ups included. |
| `SimpleQueue.Safe` | common/utils/simple_queue.h:17-84 | In every interleaving of any number of threads: what came out and what is queued is what came in, in order; a positive capacity is never exceeded; and while a thread sleeps for an item, there are no more items than pending notifications and woken threads, and likewise for room. |
| `SimpleQueue.Conserved` | common/utils/simple_queue.h:17-84 | In every interleaving: every item that a waiting push brings, or a push that finds room, is in the queue, came out, or is held by a thread that waits for room; and every waiting pop, and every pop that finds an item, got one or waits for it. |
| `SimpleQueue.StepBalances` | common/utils/simple_queue.h:17-84 | What a step brings in is taken or held. |
| `SimpleQueue.CallsBalance` | common/utils/simple_queue.h:17-84 | A call for an item that a step makes is served or waits. |
| `SimpleQueue.CanStepIff` | common/utils/simple_queue.h:17-84 | When each step can be taken: a call in any state of the queue, a woken thread whenever the mutex is free, and a notification to any thread that sleeps there, or to none if none does. |
| `SimpleQueue.SleepsIff` | common/utils/simple_queue.h:17-84 | A step ends asleep exactly where the loops of the code wait, and a call that does not wait changes nothing when there is nothing to take or no room. |
| `SimpleQueue.OneActs` | common/utils/simple_queue.h:17-84 | A step moves no other thread but one that it notifies. |
| `SimpleQueue.RestIsDeserved` | common/utils/simple_queue.h:17-84 | When no thread is on its way, whoever sleeps for an item sleeps on an empty queue, and whoever sleeps for room on a full one. |
| `SimpleQueue.NotForgotten` | common/utils/simple_queue.h:54-84 | While a thread sleeps for an item that is there, some thread can take a step that takes an item or wakes that sleeper. |
| `SimpleQueue.NotForgottenPush` | common/utils/simple_queue.h:37-64 | The same for a thread that sleeps for room. |
| `CelSort.QuickSort` | common/celib-1.0/src/cel_sort.c:322-330 | Any array with at least one element ends sorted and with the same elements, for any comparison that orders them. |
| `CelSort.QuickSortRange` | common/celib-1.0/src/cel_sort.c:281-315 | So does any range of it, with nothing outside touched. |
| `CelSort.Partition` | common/celib-1.0/src/cel_sort.c:288-306 | The scans never leave the range although they test no index, and the pivot ends between the smaller and the larger elements. |
| `CelSort.ScanUp` | common/celib-1.0/src/cel_sort.c:296 | The upward scan stops at the latest at the element that bounds it. |
| `CelSort.ScanDown` | common/celib-1.0/src/cel_sort.c:297 | The downward scan stops at the latest at the element before the other scan. |
| `CelSort.Median3` | common/celib-1.0/src/cel_sort.c:252-274 | The pivot is beside the right end, and the two ends are on their sides of it. |
| `CelSort.MergeRuns` | common/celib-1.0/src/cel_sort.c:143-190 | The two runs are merged through the second array and copied back, and nothing else changes. |
| `CelSort.MergePass` | common/celib-1.0/src/cel_sort.c:214-235 | One pass makes blocks of twice the length, each in order, with a shorter one at the end. |
| `CelSort.MergeSort` | common/celib-1.0/src/cel_sort.c:198-245 | Any array ends in order with the same elements. |
| `CelSort.MergeInOrder` | common/celib-1.0/src/cel_sort.c:143-190 | Merging two lists in order gives one. |
| `CelSort.SubInsertSort` | common/celib-1.0/src/cel_sort.c:23-57 | The range ends sorted, and nothing outside it is touched. |
| `CelSort.GapInsert` | common/celib-1.0/src/cel_sort.c:109-125 | One insertion with a gap keeps elements that gap apart in order, one further. |
| `CelSort.ShellSort` | common/celib-1.0/src/cel_sort.c:90-130 | Any array within the table of gaps ends in order with the same elements. |
| `CelHashmap.HashMap.Put` | common/celib-1.0/src/cel_hashmap.c:154-187 | The map has the value for the key, the old value is returned, and the whole invariant holds across a rebuild. The table grows exactly when the key is new and the size was at its threshold, to the first odd prime, or square of one, above twice its length; and the size stays within the threshold if it was and the factor times the length and one is at least 1. |
| `CelHashmap.HashMap.Remove` | common/celib-1.0/src/cel_hashmap.c:215-246 | The map loses exactly the key. |
| `CelHashmap.HashMap.Set` | common/celib-1.0/src/cel_hashmap.c:289-314 | A value is replaced only for a key that is there. |
| `CelHashmap.HashMap.Get` | common/celib-1.0/src/cel_hashmap.c:249-266 | The value of the map for the key. |
| `CelHashmap.HashMap.Exists` | common/celib-1.0/src/cel_hashmap.c:269-286 | Whether the map has the key. |
| `CelHashmap.HashMap.Rebuild` | common/celib-1.0/src/cel_hashmap.c:104-145 | Every node moves to the chain that its hash selects in a table whose length is the first odd prime, or square of one, above twice the old one, and the map is the same. |
| `CelHashmap.HashMap.InItsChain` | common/celib-1.0/src/cel_hashmap.c:110-138 | On a valid map each node is in the chain with the number of the hash of its key modulo the length. |
| `CelHashmap.Perform` | common/celib-1.0/src/cel_hashmap.c:104-314 | Any sequence of put, set and remove agrees with a plain map, and a map within its threshold stays within it, if the factor times its first length and one is at least 1. |
| `CelHashmap.GrowthIsEnough` | common/celib-1.0/src/cel_hashmap.c:144 | The new threshold is above the old one if the factor leaves room for one element. |
| `CelChains.MoveStep` | common/celib-1.0/src/cel_hashmap.c:125-138 | One round of the rebuilding loop keeps the chains of both tables apart and well linked. |
| `CelMath.IsPrime` | common/celib-1.0/src/cel_math.c:29-42 | The test lets pass 2 and the odd numbers above 1 without a divisor whose square is below them. |
| `CelMath.AcceptedIs` | common/celib-1.0/src/cel_math.c:29-42 | It is right about a number if and only if that is not the square of an odd prime. |
| `CelMath.NineIsAccepted` | common/celib-1.0/src/cel_math.c:29-42 | The first number it is wrong about. |
| `CelMath.NextPrime` | common/celib-1.0/src/cel_math.c:16-21 | The search ends for every positive number, with the least odd number from there on that is a prime or the square of one. |
| `CelMath.PrimeAbove` | common/celib-1.0/src/cel_math.c:16-21 | It ends because there is an odd prime above every number. |

## Left out

- URL pieces (`http_parser_parse_url`), pausing, and callbacks that fail or are absent; the answer of on_headers_complete is a parameter that depends on the fields it can see.
- HTTP_PARSER_STRICT is 1, as by default.
- HttpRoundTrip.SeriesRoundTrip: the callback gives the same answer for all messages of the series, and each has a text of its own, so that nothing stands between them.
- HttpParserImpl.HttpParser.Execute: after an error the bytes of the field under way are not reported, as in the code, so the callbacks are then described only up to that field.
- Lzw.DecodeCodes: decimal keys are numbers; up to 745 codes this is what the code does, from there on it writes past its key buffer (Lzw.KeysFitIff).
- Lzw.CodecRoundTrip: the same, and the bit buffers are unbounded, which makes no difference up to that many codes (Lzw.BitsFit).
- Lzw.EncodeDecode: the same.
- Rle.Decode: on a code that ends within a packet the code reads past its input, which is not modelled.
- BitPacking.Unpack: the accumulator is unbounded; Lzw.BitsFit says how far an int goes.
- The file forms of the codecs, and allocation failure everywhere.
- UtHash.HashTable.Add: the hash handle is part of the element, the hash function is a parameter, the Bloom filter and HASH_SELECT are left out, and a key that is already there is not added, as the documentation asks of callers.
- UtHash.HashTable.Delete: the release of memory is not modelled; without an element the fields of the table mean nothing.
- UtSort.Sort: counts and sizes are unbounded, and the comparison does not look at the links.
- Datrie.Dat.Grow: new nodes are zero; the code clears from the node count instead of the old total, which leaves the last few of a second block as the allocator gave them.
- Datrie.Dat.Build: node indices are unbounded; writing the arrays to a file and loading them are left out.
- Kmp.Find: a negative start beyond the text, where the code would read before it, is not a call it describes; lengths are within an int.
- Kmp.FindR: a start at or behind the end of the text, where the code would read past it, is not a call it describes.
- JsonRoundTrip.RoundTrip: numbers are real, and those that are not 32-bit integers are read but not printed; the lengths of the output buffers and the error position are left out.
- JsonParser.ReadString: a text that ends inside an escape, and a \u without four hex digits, which the code leaves to sscanf, are one outcome of their own.
- JsonParser.ReadArray: the children of a node are a sequence instead of linked nodes.
- Md5.Context.Final: the block function is a parameter, and the digest is what its last state spells.
- SimpleQueue.Safe: the queue is described by atomic steps under the mutex; fairness and time are left out, as are ptr_queue and the destructor.
- CelSort.QuickSort: on no elements the code takes the right end to be the largest unsigned number, so that case is not one it describes.
- CelSort.MergeSort: elements are values; the second array of the code holds elements up to the size of a pointer.
- CelHashmap.HashMap.Put: the factor is a real number, keys are compared by their bytes, nodes are not freed, and the twins for int values, which have the same code, are left out.
- CelMath.NextPrime: numbers are positive and do not overflow.
- cel_bucket_sort, the string buffer, the lists, arrays, bitmaps and Bloom filters of celib, Base64, CRC32, URL coding and UTF-8 helpers: they would add only easy members.
- The spider, the client and the extractor: sockets, libevent, thrift, curl and language tools.

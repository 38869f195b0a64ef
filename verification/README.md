# libmarias3, verified

A model in Dafny of the parts of libmarias3 that compute something: the hash, the XML parser, the paged bucket
listing with its pooled list, the role lookup, the buffers in which requests and responses are assembled, and the
signature. Objects that the C code updates in place are classes; loops are loops. Each method is proved against
functions that say what it computes, and the theorems are about those functions.

| files | what they model |
|---|---|
| `Sha256Constants`, `Sha256Spec`, `Sha256`, `Hmac` | `src/sha256-internal.c`, `src/sha256_i.h`, `src/sha256.c` against FIPS 180-4 and RFC 2104 |
| `Sha256Trace`, `AbcTrace`, `HmacTraces`, `KnownAnswers` | published digests and macs, worked out |
| `XmlSpec`, `XmlParser`, `XmlRoundTrip`, `XmlSoundness`, `XmlPath`, `XmlExample` | `src/xml.c` |
| `ListPool`, `ListPage`, `ListResponse`, `Listing` | listing: `src/response.c`, `src/request.c`, `src/marias3.c` |
| `MarkupText`, `TextElements`, `BucketPage`, `BucketServer`, `PageExample` | the pages that a server prints of a bucket |
| `BucketKeys`, `BucketRuns`, `BucketListingV1`, `ListedBuckets`, `BucketListingV2` | listing such a bucket |
| `RoleLookup` | the search for a role: `src/response.c`, `src/assume_role.c` |
| `ReceiveBuffer` | the growing response buffer: `src/request.c` |
| `CText`, `PercentEncoding`, `ObjectPath`, `RequestUri` | path, query and URI of a request: `src/request.c` |
| `Signing`, `CanonicalRequest`, `RequestHeaders`, `SignedRequest` | headers, canonical request, key chain and signature: `src/request.c` |

`dafny verify dfyconfig.toml` checks everything.

The response of a server, a rounding of real numbers to doubles, the conversions of numbers and dates, and the time
of a request are parameters. A server is a function from the number of a request and what it continues from to a
reply. A server that holds a bucket prints its pages as well-formed documents, each in any layout and with its
elements in any order, and may give every page a different size; a request whose URI is too long is not sent.
`SimpleServesV1` and `SimpleServesV2` show that there are such servers, `TransferExists` that there are such ways for
a body to arrive. In the text modules a C byte is a `char`; in the hash modules it is a `bv8`.

What the code does where its comments or its callers would have it otherwise:

* Whitespace before the `>` of a tag is read as if it were the `>` (`src/xml.c:532-549`). `ParsePrint` says for
  which documents this matters: all with such whitespace anywhere but in the last tag.
* `<a/>` is an element named `a/`, and `<a />` one named `a` (`src/xml.c:725-733`).
* A node's name matches a literal when it is a prefix of it (`src/xml.c:967-969`).
* A version 1 listing ends at a truncated page on which it keeps nothing, and reports success
  (`src/response.c:319-322`). Its marker is the key as it was printed, entities included, so that a key with an
  ampersand may be asked for without end; and a marker may be too long to be sent (`src/request.c:89-93`), although
  its key is not too long for S3. `ListingV1` says exactly which buckets are listed in full, `ListedByEveryServer`
  which are listed whatever the pages are; `DirectoryHidesFile`, `MarkerRepeats` and `LongKeyIsRefused` are buckets
  that are not. Common prefixes do not move the marker, and can be listed twice (`PrefixListedTwice`).
* A list page that cannot be parsed is passed over, since nobody looks at the result (`src/request.c:978-979`), and
  a listing returns the result of its last request only. `SuccessIsTrue` says exactly when success can be believed;
  `UnreadableIsSuccess` is a run where it cannot.
* A session token may be too long for the canonical request (`src/request.c:279-395`): then the hash of the payload
  is cut off, and the signature is not the one that Signature Version 4 prescribes. `CutIff` says exactly when;
  `LosingRequest` is such a request. A path segment may be too long for the one behind it
  (`src/request.c:143-179`); `StartsInsideIff` says exactly when.
* A role page with an empty body ends the lookup with success and no ARN (`src/response.c:341-345`).
* The `SignedHeaders` of the Authorization header name one header too many for a copy with a session token
  (`src/request.c:567-572`). `ClaimIsTrue` says that this is the only such case.

## Model

| member | source | states |
|---|---|---|
| Sha256Constants.RoundConstantsAreCubeRoots | src/sha256-internal.c:45-61 | each of the 64 round constants is the first 32 bits of the fractional part of the cube root of the prime in its place (FIPS 180-4, section 4.2.2) |
| Sha256Constants.InitialWordsAreSquareRoots | src/sha256-internal.c:137-149 | the same of the initial hash value and square roots (section 5.3.3) |
| Sha256Spec.ScheduleRecurrence | src/sha256-internal.c:92-101 | every word of the message schedule obeys the recurrence of section 6.2.2 |
| Sha256Spec.WordRoundTrip | src/sha256_i.h:52-63 | reading four bytes as a word and writing a word as four bytes undo each other |
| Sha256Spec.Be64OfLow64 | src/sha256_i.h:39-49 | the eight length bytes depend only on the low 64 bits, so a counter that wraps does no harm |
| Sha256Spec.ChChooses | src/sha256-internal.c:68 | where x has a one, Ch takes the bit of y, and elsewhere that of z |
| Sha256Spec.MajDecides | src/sha256-internal.c:69 | where x and y agree, Maj takes their bit, and elsewhere that of z |
| Sha256Spec.SigmasOfBits | src/sha256-internal.c:72-75 | to which places the four sigmas take the highest bit and the lowest one |
| KnownAnswers.AbcDigest | src/sha256-internal.c:81-249 | the digest of "abc" is ba7816bf 8f01cfea 414140de 5dae2223 b00361a3 96177a9c b410ff61 f20015ad, the value published with FIPS 180-4 |
| KnownAnswers.JefeMac | src/sha256.c:45-131 | the mac of "what do ya want for nothing?" under "Jefe" is that of test case 2 of RFC 4231; its hashes have two blocks each |
| Sha256Trace.Compressed | src/sha256-internal.c:81-133 | words and states that follow each other from a block and a hash value end with what compressing the block gives |
| Sha256.ChSelectIsCh | src/sha256-internal.c:68 | the rewritten Ch is the Ch of section 4.1.2, for all words |
| Sha256.MajVoteIsMaj | src/sha256-internal.c:69 | the rewritten Maj is the Maj of section 4.1.2, for all words |
| Sha256.GetBe32 | src/sha256_i.h:52-55 | reads the big-endian word at a place of an array |
| Sha256.PutBe64 | src/sha256_i.h:39-49 | writes the eight big-endian bytes and no others |
| Sha256.PutBe32 | src/sha256_i.h:57-63 | writes the four big-endian bytes and no others |
| Sha256.LoadSchedule | src/sha256-internal.c:92-101 | the array W is the message schedule of the block |
| Sha256.OneRound | src/sha256-internal.c:103-124 | RND and the shift of the eight-word array are one round of the a..h recurrence |
| Sha256.AllRounds | src/sha256-internal.c:111-124 | the loop is the 64 rounds of section 6.2.2, for every state and schedule |
| Sha256.PadLong | src/sha256-internal.c:213-242 | when the buffered tail leaves no room for the length, the padding of section 5.1.1 is these two blocks |
| Sha256.PadShort | src/sha256-internal.c:213-242 | otherwise it is this one block |
| Sha256.State.constructor | src/sha256-internal.c:137-149 | a fresh state has absorbed nothing |
| Sha256.State.CompressBlock | src/sha256-internal.c:81-133 | in-place compression replaces the state by the compression function of section 6.2.2 of state and block |
| Sha256.State.Process | src/sha256-internal.c:158-197 | whatever the buffer held, the state has then absorbed the new bytes behind the old ones; a full buffer is refused and nothing changes |
| Sha256.State.Done | src/sha256-internal.c:206-249 | the output is the FIPS 180-4 digest of everything absorbed, however it was cut into calls |
| Hmac.HashVector | src/sha256-internal.c:21-37 | the digest of the concatenated fragments, also when the output is one of them |
| Hmac.Hash | src/sha256.c:20-33 | the digest of a buffer |
| Hmac.FillPad | src/sha256.c:81-87 | the pad is the key, zero-filled to 64 bytes, XORed with the mask |
| Hmac.HmacVector | src/sha256.c:45-115 | RFC 2104 of the key and the concatenation of at most five fragments, for every key length; more fragments are refused; a key of at most 64 bytes that shares its array with the output gives a different, stated value |
| Hmac.HmacBuffer | src/sha256.c:127-131 | RFC 2104 of a key and one buffer, and the value that results if a key of at most 64 bytes shares its array with the output |
| XmlSpec.SpacesAre | src/xml.c:360-425 | whitespace is tab, line feed, vertical tab, form feed, carriage return and blank, and nothing else |
| XmlExample.ExampleParsed | src/xml.c:702-885 | a document with a header, attributes, an empty element and every kind of whitespace between its tags and around its text is parsed to this tree |
| XmlParser.Parser.Peek | src/xml.c:356-372 | the n-th visible character behind the cursor, whitespace not counted; never read past the NUL behind the input |
| XmlParser.Parser.Consume | src/xml.c:382-412 | the cursor moves on, but not past the last byte |
| XmlParser.Parser.SkipWhitespace | src/xml.c:422-432 | the cursor goes to the next visible character, or to the last byte |
| XmlParser.Parser.ParseTagEnd | src/xml.c:522-557 | the tag is what stands before the next `>`, without trailing whitespace, and one byte behind it is consumed |
| XmlParser.Parser.ParseTagOpen | src/xml.c:568-583 | an opening tag, or failure |
| XmlParser.Parser.ParseTagClose | src/xml.c:596-619 | a closing tag, or failure |
| XmlParser.Parser.ParseContent | src/xml.c:636-681 | the text up to the next `<`, trimmed on both sides |
| XmlParser.Parser.ScanText | src/xml.c:650-662 | because peeking skips whitespace the scan already stops where the trimmed text ends |
| XmlParser.Parser.CutName | src/xml.c:463-469 | finding attributes cuts the tag name to its first word |
| XmlParser.Parser.StringEquals | src/xml.c:199-213 | true exactly when the two slices spell the same text |
| XmlParser.Parser.ParseNode | src/xml.c:702-800 | the recursive descent terminates, never moves the cursor back, and computes the tree, success and cursor of the functional parser |
| XmlParser.Parser.ParseBetween | src/xml.c:735-770 | the loop that grows the child array computes the list of children of the functional parser |
| XmlParser.Parser.SkipMetaHeader | src/xml.c:831-844 | the cursor goes behind the first `?>` if the input begins with `<?` |
| XmlParser.ParseBuffer | src/xml.c:849-885 | parsing the input in any buffer that holds a NUL behind it gives the functional parser's result |
| XmlRoundTrip.ParsePrint | src/xml.c:702-885 | for every tree and every layout of it (whitespace between tags and around text, attributes, header, anything behind the root), parsing the text gives the tree back if and only if no tag but the last has whitespace before its `>` |
| XmlRoundTrip.NodeReads | src/xml.c:702-800 | an element is read to the exact cursor position behind it, up to the clamp at the last byte |
| XmlRoundTrip.NodeMisread | src/xml.c:532-549 | with whitespace before any other `>` the element is rejected or read as a different tree |
| XmlRoundTrip.TextDeterminesTree | src/xml.c:702-885 | two layouts with the same text are layouts of the same tree, whether or not the parser reads it |
| XmlSoundness.ParseIffWritten | src/xml.c:702-800 | the parser returns an element if and only if that element is written in the input: open name, trimmed text or children in order with only whitespace between, and a closing tag that spells the open name |
| XmlSoundness.ContentTrimmed | src/xml.c:636-681 | content is non-empty, starts and ends with visible characters and holds no `<` |
| XmlSoundness.StringsInside | src/xml.c:702-800 | every string of an element lies strictly inside the element's span, at any depth |
| XmlSoundness.DocumentWritten | src/xml.c:849-885 | a parsed document's root is written behind the header, with all its strings inside |
| XmlPath.EasyChild | src/xml.c:1042-1099 | returns a node exactly when every name of the path picks out a single child and the last is that node |
| ListPool.Container.NewNode | src/response.c:86-129 | the node that was handed out last is none of those handed out before it |
| ListPool.Container.GetNextListPtr | src/response.c:86-129 | nodes handed out = 1024 * pools - pool_free; the new node is the next slot; `start` stays; earlier nodes are neither moved nor changed |
| ListPool.Container.Append | src/response.c:258-286 | the list has one more item at its end, across pool borders, and `next` is its tail |
| ListPool.Container.Visit | src/marias3.c:409-426 | following `next` from `start` meets exactly the items, in order |
| ListPool.Container.FreeKeys | src/marias3.c:306-314 | the keys that are given back are those of the list, once each and in order; all pools and records stay, so every node is read before its pool goes |
| ListPool.Container.FreePools | src/marias3.c:315-322 | every pool and every record is given back once |
| ListPool.Container.ListFree | src/marias3.c:306-328 | nothing that was allocated stays allocated, and the container is as it was at first |
| ListPage.NameIsPrefix | src/xml.c:967-969 | the name test holds exactly when the node's name is a prefix of the literal; a name with a NUL must spell the whole literal before it |
| ListResponse.ReadContents | src/response.c:206-256 | the loop over one Contents element: last key, size and date, or skipped at a directory key; size and date outlive the element |
| ListResponse.ReadNode | src/response.c:172-315 | one element adds its entries to the end of the list and updates the loop's variables |
| ListResponse.ParseListResponse | src/response.c:131-326 | a page adds exactly its kept Contents and each CommonPrefixes' Prefix, in document order; what to ask for next; a bad page adds nothing |
| Listing.Client.ReceivePage | src/request.c:907-996 | however a body is cut into deliveries, collecting it and parsing the receive buffer adds the entries of the whole body |
| Listing.Client.ExecuteList | src/request.c:907-996 | after any number of pages of any size the list is the old list and then the pages, in order, up to the last request made; only that request's result is returned: 404 is NOT_FOUND, 403 AUTH, 301 ENDPOINT, any other code from 400 on SERVER, or AUTH_ROLE with a role, and all others are success |
| Listing.Client.List | src/marias3.c:409-426 | the list is exactly the pages of this run, whatever was listed before; the result is that of its last request, code by code |
| Errors.CodesInOrder | libmarias3/marias3.h:64-81 | every code is the place of its name in the enumeration |
| Listing.EarlierReplies | src/request.c:974-996 | every reply of a run but the last arrived and was parsed |
| Listing.SuccessIsTrue | src/request.c:974-996 | when the result is success, every response was read without an error if and only if no earlier one had an error status and the last body is empty or parses |
| Listing.UnreadableIsSuccess | src/request.c:978-979 | a response that is not XML gives an empty listing and success |
| MarkupText.ShownIsSame | src/xml.c:636-681 | a text that a server escapes and the client trims, and does not decode, is the same exactly if it has no markup character and no whitespace at its ends |
| BucketPage.FieldsAreLast | src/response.c:204-256 | without a directory key each field of an entry is the last text of its kind |
| BucketPage.DirectorySkips | src/response.c:214-226 | a directory key anywhere in an element makes it skipped |
| BucketPage.PrefixIsRead | src/response.c:290-313 | a CommonPrefixes element adds the text of its Prefix, with length 0 and date 0 |
| BucketPage.ElementsRead | src/response.c:172-317 | the loop over a page takes objects and common prefixes in document order, whatever stands between them |
| BucketPage.PageRead | src/response.c:131-326 | a page, with its elements in any order and others among them, is read as those objects that are not directories and all its common prefixes, in document order; the next request continues from the token, or from the last kept key |
| BucketRuns.PrintedPage | src/request.c:974-996 | the same of every document that shows such a page, as the body of a response |
| PageExample.ExamplePageV2 | src/response.c:131-326 | a page written out, with a prefix, a file, a directory key and a token, gives the entries of prefix and file, and the token |
| PageExample.ExamplePageV1 | src/response.c:131-326 | the same page without a token gives the same entries, and the key of the file |
| BucketRuns.PreparePage | src/request.c:775-794 | the request of a page is refused exactly if its counted length reaches the limit |
| BucketRuns.ContinuationLength | src/request.c:58-268 | what a token or a marker adds to the counted length of the request that continues from it |
| BucketListingV1.ListedIsPrefix | src/response.c:319-322 | whatever the sizes of the pages, a version 1 listing never invents, repeats or reorders: it gets a front of what it should get |
| BucketListingV1.CompleteIffNoStall | src/response.c:319-322 | when every request is sent, that front is everything if and only if no page on the way is all directories with something to keep behind it |
| BucketListingV1.PlainListingV1 | src/request.c:784-996 | with plain keys, a run against a server that prints pages of any sizes of the sorted keys behind the marker ends; it lists a front of the keys not ending in `/`, and its result is URI_TOO_LONG exactly when a marker on the way is too long to be sent |
| BucketListingV1.ListedMeansPlain | src/request.c:974-996 | a run that lists a bucket in full, whatever its length, has a bucket whose kept keys are all plain |
| BucketListingV1.ListingV1 | src/request.c:784-996 | for every bucket and all page sizes: the run ends, without an error, with every key not ending in `/` once and in order, if and only if these keys are plain, every marker on the way is short enough to be sent, and no page on the way is all directories with something to keep behind it |
| BucketListingV1.FullPagesStall | src/response.c:319-322 | with pages of n keys the last of these conditions is that no n directories in a row have something to keep behind them |
| BucketListingV1.ListBucketV1 | src/marias3.c:409-426 | the linked list that the caller gets and the result, for plain keys: the whole bucket and no error under exactly these conditions |
| ListedBuckets.ListedByEveryServer | src/request.c:784-996 | every server with pages of up to n keys has its bucket listed in full if and only if the kept keys are plain, no key ending in `/` stands before one of them, and each of them that is not the last key of all is short enough for a marker |
| ListedBuckets.BoundedKeysFit | src/request.c:87-93 | a bound on the length of the keys under which all markers are short enough |
| ListedBuckets.DirectoryHidesFile | src/response.c:319-322 | a bucket of two keys on which the client's run lists nothing and reports success |
| ListedBuckets.MarkerRepeats | src/response.c:319-322 | a bucket of two keys on which the client's run never ends |
| ListedBuckets.PrefixListedTwice | src/response.c:290-322 | two pages of a version 1 listing with a delimiter on which the client's run lists a common prefix twice |
| ListedBuckets.LongKeyIsRefused | src/request.c:87-93 | a bucket of two keys, one of 1005 to 1024 plain bytes, on which the client's run ends with URI_TOO_LONG before it has asked for the second |
| BucketListingV2.ReceivedIsFront | src/request.c:974-996 | the pages that come are a front of the bucket, and all of it when every token is short enough to be sent |
| BucketListingV2.ListingV2 | src/request.c:784-996 | with tokens the run always ends, for all page sizes, with and without a delimiter, and lists every kept object and every common prefix that came once, in order, as it is printed; its result is URI_TOO_LONG exactly when a token is too long to be sent; it lists the bucket without an error if and only if the kept keys and the prefixes are plain and every token on the way is short enough |
| BucketListingV2.ListBucketV2 | src/marias3.c:409-426 | the same of the linked list that the caller gets |
| RoleLookup.SearchPage | src/response.c:354-413 | the first member of the page with the name, and otherwise the marker |
| RoleLookup.ParseRoleList | src/response.c:328-417 | the ARN, the result and the marker of one page |
| RoleLookup.ExecuteListRole | src/assume_role.c:591-665 | the recursion returns what the last page it reaches says: NONE with the ARN, NOT_FOUND without, RESPONSE_PARSE for a body that is not XML, and the error of a request that failed |
| RoleLookup.FirstInPageOrder | src/assume_role.c:645-665 | over pages linked by markers the ARN is that of the first member in page order with the name, and the result is NOT_FOUND exactly when there is none |
| RoleLookup.OneRoleLookup | src/assume_role.c:645-665 | against a server that prints a page with one role, that role is found, and no other |
| RoleLookup.TwoRoleLookup | src/assume_role.c:645-665 | against a server that prints two pages, the first of which names the second by its marker, both roles are found, and no other |
| RoleLookup.SuccessMeansFound | src/response.c:341-345 | the lookup succeeds if and only if an ARN was stored or the last response had an empty body |
| ReceiveBuffer.GrowthCovers | src/request.c:711-715 | for deliveries up to 2^53 bytes the growth computed in doubles, every operation rounded, has room for the delivery |
| ReceiveBuffer.GrowthCoversUpTo | src/request.c:711-715 | 2^53 is the largest bound of which this is true for all chunk sizes |
| ReceiveBuffer.MemoryBuffer.Reserve | src/request.c:707-727 | there is room for the delivery and a NUL behind it, and the bytes received so far are unchanged |
| ReceiveBuffer.MemoryBuffer.BodyCallback | src/request.c:699-736 | the delivery stands behind what was there, with a NUL behind it inside the allocation |
| ReceiveBuffer.ReceiveAll | src/request.c:699-736 | a transfer stores the concatenation of its deliveries; at most 1 + (length - 1) / chunk reallocations were made; if no delivery exceeds the chunk, alloced <= length + 2 * chunk |
| PercentEncoding.UnescapeEscape | src/request.c:165 | decoding per RFC 3986, section 2.1, undoes the encoding, whatever follows |
| PercentEncoding.EscapedCharacters | src/request.c:165 | encoded text holds unreserved characters and `%` only |
| PercentEncoding.UnreservedIs | src/request.c:165 | letters, digits and `-._~` are not encoded, and nothing else |
| PercentEncoding.EscapeCharIs | src/request.c:165 | every other byte becomes `%` and two upper-case hexadecimal digits |
| ObjectPath.PathExample | src/request.c:143-179 | one path in full |
| ObjectPath.SegmentsAppend | src/request.c:160-170 | splitting at slashes takes each side of a slash by itself |
| ObjectPath.PathSegments | src/request.c:143-179 | splitting a path gives the encoded non-empty segments of the object name, all and in order |
| ObjectPath.PathInjective | src/request.c:143-179 | two objects share a path if and only if their non-empty segments agree |
| ObjectPath.PathRecoversObject | src/request.c:143-179 | decoding the path gives `/` and the object name if and only if the name has no empty segment |
| ObjectPath.NextToken | src/request.c:160-170 | strtok_r finds the next non-empty segment and where to go on |
| ObjectPath.StartsInsideIff | src/request.c:162-170 | no segment is written from past the end of the buffer if and only if the path without its last segment is not longer than the buffer |
| ObjectPath.LongSegmentIsOutside | src/request.c:162-170 | a segment that fills the buffer and one behind it are names for which this fails |
| ObjectPath.GeneratePath | src/request.c:143-179 | the buffer holds the path of the object, cut at 1023 characters |
| RequestUri.QueryRoundTrip | src/request.c:186-268 | reading a query gives every parameter back, in order and unchanged |
| RequestUri.ListingReads | src/request.c:186-268 | what a server finds in the query under prefix, delimiter, marker, continuation-token and list-type |
| RequestUri.QueryExample | src/request.c:186-268 | two queries in full |
| RequestUri.AcceptedLength | src/request.c:58-130 | over https, a URI with a query is accepted if and only if it has at most 1022 characters |
| RequestUri.GenerateQuery | src/request.c:186-268 | the buffer holds the query for exactly the parameters asked for, cut at 3071 characters |
| RequestUri.UriLength | src/request.c:58-130 | the constant 10 of the length check covers scheme and separators, and no less would |
| RequestUri.BuildRequestUri | src/request.c:58-137 | an error exactly when the counted length reaches the limit; otherwise the whole URI, not cut |
| RequestUri.PrepareRequest | src/request.c:775-794 | the same with path and query taken from their buffers: what was cut there never becomes a request |
| RequestUri.SameUri | src/request.c:58-268 | two requests to an endpoint have the same URI if and only if they name the same segments and ask for the same parameters |
| Signing.HexTextDecodes | src/request.c:397-401 | a printed hash tells every byte |
| Signing.PrintHash | src/request.c:397-401 | the loop prints all 32 bytes in order |
| Signing.DeriveKey | src/request.c:524-543 | two alternating buffers end with HMAC(HMAC(HMAC(HMAC("AWS4" + secret, date), region), service), "aws4_request"), the secret cut at 128 characters |
| Signing.WriteStringToSign | src/request.c:545-553 | the header buffer holds the string to sign of Signature Version 4 |
| Signing.Sign | src/request.c:524-564 | the printed HMAC of the string to sign under the derived key |
| CanonicalRequest.WriteNames | src/request.c:362-387 | each of the constants 77, 56, 59 and 38 is the length of the line it stands for |
| CanonicalRequest.AssembleRequest | src/request.c:279-390 | `pos` is the length of the text before every append, so that the buffer holds all pieces in order |
| CanonicalRequest.GenerateRequestHash | src/request.c:279-407 | the printed SHA-256 of that text; an unknown method is an error |
| CanonicalRequest.NamesLineAgrees | src/request.c:354-387 | the line of names lists the headers of the request, for all four kinds of request |
| CanonicalRequest.NamesOfHeaders | src/request.c:446-498 | these are the names of the headers that are appended, in order |
| CanonicalRequest.NamesAreSorted | src/request.c:446-498 | they are in strictly increasing order of character codes |
| CanonicalRequest.AssembledIsCanonical | src/request.c:279-387 | the assembled text is method, path, query, headers, blank line, the names of those headers |
| CanonicalRequest.CanonicalInjective | src/request.c:270-278 | two requests have the same canonical text if and only if method, path, query, all headers and the payload hash agree |
| CanonicalRequest.ClaimAgrees | src/request.c:565-590 | the names in the Authorization header are the signed names if and only if the request is not a copy with a session token; then one more follows them |
| RequestHeaders.HeadersFit | src/request.c:446-498 | a header is never cut when the canonical request fits its buffer |
| RequestHeaders.CanonicalLength | src/request.c:279-390 | the exact length of the canonical request without the payload hash at its end, from the lengths of its parts |
| RequestHeaders.CutIff | src/request.c:279-395 | the canonical request is hashed whole if and only if that length leaves room for 64 more characters and a NUL |
| RequestHeaders.HashIsLost | src/request.c:389-395 | at 3071 characters or more the payload hash at the end makes no difference to the hash of the request |
| RequestHeaders.LosingRequest | src/request.c:389-395 | a request with an accepted URI for which this happens |
| RequestHeaders.AcceptedFits | src/request.c:58-130 | a request whose URI is accepted is hashed whole if the header lines of copy source and session token take no more than 1788 bytes |
| RequestHeaders.LongTokenOverflows | src/request.c:492-498 | with a session token of 2801 bytes or more no request is hashed whole |
| RequestHeaders.SignatureIsStandard | src/request.c:524-564 | when canonical request, secret and headers fit their buffers, the signature is the one that Signature Version 4 prescribes for the canonical request of exactly the headers signed |
| RequestHeaders.BuildSignedHeaders | src/request.c:446-498 | host, payload hash, copy source if any, date, token if any, in this order |
| RequestHeaders.BuildRequestHeaders | src/request.c:409-602 | the list is the signed headers, then the Authorization header, then the fixed ones; when nothing is cut, Authorization has the prescribed signature and every header is whole; otherwise the signature is that of the texts as cut; an unknown method is an error |
| SignedRequest.SignedForUri | src/request.c:58-130 | the URI goes to the host that is signed, with the path and the query that are signed, if and only if the protocol version is 1 or 2 |
| SignedRequest.HostIs | src/request.c:433-453 | the host is the domain, with the bucket and a dot in front of it in version 2 |
| SignedRequest.BuildRequest | src/request.c:784-903 | URI and header list of one request: the host header names the host of the URI, and path and query of the URI are those of the canonical request |
| SignedRequest.HeadersSay | src/request.c:446-498 | the names and values of all signed headers |
| SignedRequest.SourceReads | src/request.c:470-481 | bucket and key can be read from the copy source |
| SignedRequest.KeyFollowsScope | src/request.c:524-543 | the key is derived from the secret through date, region, service and "aws4_request", the fields of the scope in their order |
| SignedRequest.ToSignLines | src/request.c:545-553 | the string to sign is algorithm, time, that scope and the hash of the canonical request, line by line |
| SignedRequest.AuthorizationWords | src/request.c:565-590 | the Authorization header claims the key with that scope, the names and the signature, each in its place |
| SignedRequest.DecimalReads | src/request.c:598-602 | the number in the Content-Length header is the length |
| SignedRequest.UnsignedSay | src/request.c:592-602 | Transfer-Encoding is always sent, and Content-Length with a put that is no copy and with nothing else; it says the length |
| SignedRequest.ExampleLines | src/request.c:279-390 | the lines of the canonical request of one listing |
| RequestHeaders.ClaimIsTrue | src/request.c:565-590 | for every request, the claimed names are those of its signed headers if and only if it is not a copy with a session token |

## Left out

- Allocation never fails in the model, and sizes do not wrap around 2^64; only the bit counter of the hash does.
- ReceiveBuffer.MemoryBuffer.BodyCallback: deliveries of at most 2^53 bytes, beyond which the growth can be too small (`GrowthCoversUpTo`); an empty delivery must not come first, because there is no buffer yet to hold its NUL.
- ObjectPath.GeneratePath: required is that no segment is written from a place past the end of the 1024 bytes, which `StartsInsideIff` turns into a bound; the last one may be cut. The code computes a negative size there, and what it then writes is not modelled.
- CanonicalRequest.GenerateRequestHash: required is that everything before the payload hash fits the 3072 bytes, because the code computes a negative size otherwise; `RequestHeaders.CanonicalLength` says when it does.
- Signing.Sign: a string to sign longer than the header buffer is cut in the model as it is in the code.
- RequestHeaders.BuildRequestHeaders: required is, again, that the text before the payload hash fits, as a bound on the lengths of its parts; the date is given as the 16 characters that strftime prints.
- ListResponse.ParseListResponse: pages on which the root, a Contents or a CommonPrefixes is empty, or a Contents does not have exactly one key, are excluded; the code assumes there are none.
- RoleLookup.ParseRoleList: the same of roles without a name or an ARN. The buffer that the ARN is copied to is not modelled.
- BucketListingV1.ListingV1: a server that shows objects one by one, as it does without a delimiter; with one, `PrefixListedTwice` shows that nothing like it holds. The bucket stands for the keys that begin with the prefix. Every key has something to see in it, sizes and dates are plain, and the server escapes `&`, `<` and `>` only.
- BucketListingV1.ListBucketV1: plain keys only, because a run on others may not end.
- BucketListingV2.ListingV2: every page but the last has something on it; tokens are plain texts; objects and common prefixes are printed in the order that the server gives them in the bucket.
- A server that holds a bucket answers every request that is sent: it accepts the signature and reports no errors. `Listing.SuccessIsTrue` is about servers that do anything.
- CanonicalRequest.CanonicalInjective: parts without a line break only; encoded paths and queries have none. With one, different requests can have the same text (`LineBreakConfuses`).
- Listing.Client.ExecuteList: runs that end after some number of requests; a server that never stops continuing is excluded.
- The fields that strptime leaves in the broken-down time from one entry to the next: the date conversion is a function of its text.
- Calling the URI and header builders inside the run: a request that cannot be built is one of the replies. For a server that holds a bucket these are exactly the requests that `PreparePage` refuses.
- Attribute values: the parser collects them, and nothing reads them. Only their effect on the tag name is modelled.
- Entities, CDATA and comments: the parser does not interpret them.
- What a failed parse frees, and the depth of the recursion.
- Reading a document from a file, cloning and copying strings, and the small accessors of `src/xml.c`.
- curl, locking, allocator hooks, debug output, option setters, error texts, and put, get, copy, move, delete and status beyond the request they share.
- Error messages in response bodies, and the credentials in the response of an assumed role.
- The request hash and headers of `src/assume_role.c`, which are those of `src/request.c` with a different service name and fewer headers; its response buffer is that of `src/request.c`.

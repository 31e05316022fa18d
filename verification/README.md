# A model of the OpenUsenet news server

This project models the part of the OpenUsenet server that keeps and moves articles, and proves what it
promises: the in-memory article store with its counters, number index, history and feed queue; retention,
purge and flood alerts; relaying between servers; the readers and writers that must undo each other
(dot-stuffed blocks, articles, mbox spools, path-statistics dumps, INN peer fragments); and the two
algorithms underneath, wildmat matching and UTF-8 repair.

Objects that the server changes in place are classes here (`Memory`, `MemGroup`, `MemArt`, `Article`, `Conn`,
`MBox`, `Statistics`, `Feeder`, `Session`, `PathStats`, `LineReader`, `Peer`), loops are loops, and every such
method is tied to a function of values. What the server promises is then proved about these functions: for
every input, every reachable state and every run.

| file | what it holds |
|---|---|
| `Text`, `Seqs`, `Order`, `Octets`, `Decimal` | strings, sequences without repetition, sorting, octets, decimal numbers |
| `Wildmat`, `Utf8` | pattern matching (section 4 of RFC 3977) and repair of UTF-8 (section 4 of RFC 3629) |
| `Wire` | lines and dot-stuffed blocks on a connection (section 3.1.1 of RFC 3977) |
| `ArticleText`, `HeaderLines` | the text of articles, and what its lines mean to the parser |
| `Article`, `ArticleRules` | the article object, injection of posted and offered articles, and what its checks come to |
| `Relay` | copies of one article in a network of servers (section 3.6 of RFC 5537), and the offer filter |
| `Mbox`, `Spool`, `SpoolArticles` | appending to, reading and rewriting mbox spools, and what a rewrite means for the articles |
| `StoreState` | the store as a value and what every operation does to it |
| `StoreInvariant`, `StoreGroups`, `StorePosts`, `StoreExpire`, `StorePurge`, `StoreAlerts`, `StoreFeed`, `StoreRead`, `StoreRuns`, `StoreStart` | what the operations keep and mean, one by one and over whole runs |
| `Memory`, `Session`, `ContentStats`, `Feeder` | the store object with its shared article objects, a reader's session, the statistics tables, the feeder |
| `Inpaths`, `Dump` | path statistics, their merge, and the dump file |
| `InnPeer`, `InnText` | the three INN fragments of a peer and the paste parser, and what their lines mean |

## What the proofs say about the code

- A Post that names a group twice breaks the number index: the first of the two numbers stays in the index but
  not in the article. The store stays consistent exactly when the groups that take the article are distinct
  (`StoreInvariant.PostKeepsIff`).
- An expiry that removes a group's top article lowers the group's High, and the next article gets a number that
  was used before. High stays exactly when the top number stays (`StoreExpire.ExpireHighIff`), and an emptied
  group starts at 1 again (`StoreRuns.ExpiryReusesNumbers`). Apart from that and from removing the group, a
  number never denotes another article (`StoreRuns.NumberNeverReused`).
- A group emptied by cancelling keeps Low at its High, so after the next article GROUP starts a client at a number
  that names nothing (`StoreStart.LowMayNameNothing` is a run that gets there). In every run it does so exactly from
  such a post until an article of the group is cancelled or purged, an expiry finds the group with a retention (even
  if nothing is old), or the group is removed (`StoreStart.GroupStartsIff`). A walk still meets every article once.
- LISTGROUP with a range that ends in zero lists everything from the first number on, although such a range is
  empty (`StoreRead.RangeListedIff`).
- A written block is read back to its end exactly when every stuffed line fits into 2^20 octets
  (`Wire.ReadArticleOfBlock`).
- An article without any header does not come back from its own text unless its body is empty
  (`ArticleText.RoundTripIff`).
- The value of a header line without a name is put in front of the value of the next header
  (`HeaderLines.NamelessStays`).
- The spool does not quote lines that start with ">From " but unquotes them when it reads
  (`Mbox.MessageUnchangedIff`), and it skips the entry of an article that is written as white space only, which no
  article with a header is (`Mbox.ReadOneEachIff`, `Mbox.BlankArticleIff`).
- A rewrite of a spool changes what is read exactly when a kept last message ends in a bare carriage return
  (`Spool.ReadRewrittenIff`, `Spool.BareEndExample`). The server leaves no such file: it comes from elsewhere
  (`Spool.OwnFilesEnded`).
- A worker claims up to 32 entries at once and delivers them one after another, and only the two-minute lease keeps
  others away. An entry gets two holders exactly when a claim takes one that is still held and whose lease has run
  out (`StoreFeed.OneHolderIff`; `StoreFeed.OverrunRun` is such a run).
- Removing a group or an expiry takes articles out of the store and leaves their queue entries; cancelling and
  purging take both (`StoreRuns.EntryOutlivesIff`). The program completes such an entry when its delivery comes up.
- A header that comes in several spellings is looked up in the order of the header map, which differs from one look
  to the next. So the same article is sometimes taken and sometimes refused exactly when every header that is looked
  at has an acceptable value and some header also an unacceptable one (`Article.SameOutcomeIff`); with two spellings
  of Path, one naming the server, that happens (`Article.TwoPathsExample`). After its first hop the Path has one
  spelling, so relay chains visit distinct servers all the same (`Relay.ChainDistinct`).
- Removing an article from the spool also removes every other entry whose body has a line that reads like the
  Message-ID header of the removed one (`SpoolArticles.RewriteExactIff`; `SpoolArticles.QuotingLosesEntry` is a
  case).
- Merging into statistics without articles keeps the creation time of these as the end of the period when it is
  later than the other's end (`Inpaths.MergeIntoFresh`).

## Model

| member | source | states |
|---|---|---|
| Text.SplitIff | internal/article/article.go:283-294 | the library's splitting, as hops of a Path are cut: the parts are exactly the stretches between separators |
| Text.TrimIs | internal/article/article.go:107-120 | the library's trimming, as elements of a list are: exactly the white space around a text goes |
| Text.CaseIs | internal/article/article.go:85-92 | the library's case folding, as header names are compared: letters agree with their other case, no other ASCII character changes |
| Decimal.FormatIs | internal/store/memory.go:555-561 | the decimal text of a number, as it stands in Xref: digit by digit, the last digit last |
| Wildmat.MatchRunes | internal/wildmat/wildmat.go:86-115 | the matcher ends for every pattern and answers yes exactly when the text is in the declared meaning of the pattern (`*` any text, `?` one character) |
| Wildmat.OneCharacter | internal/wildmat/wildmat.go:90-115 | `*` matches every text, `?` the texts of one character, any other character itself; the empty pattern the empty text |
| Wildmat.DenotesConcat | internal/wildmat/wildmat.go:90-115 | a concatenation of two patterns matches exactly the texts that split into a match of each |
| Wildmat.Match | internal/wildmat/wildmat.go:10-31 | the answer is the sign of the rightmost nonempty element that matches, no if none does |
| Wildmat.MatchesAppend | internal/wildmat/wildmat.go:10-31 | an element added at the end decides alone where its pattern matches and changes nothing elsewhere |
| Wildmat.OneElement | internal/wildmat/wildmat.go:10-31 | a wildmat of one element matches what its pattern matches, and nothing behind `!` or `@` |
| Wildmat.LastElement | internal/wildmat/wildmat.go:10-31 | where the pattern of one more element matches, the text is taken, or left out behind `!` or `@`; elsewhere, and for an element without pattern, the wildmat says what it said before |
| Wildmat.Poisoned | internal/wildmat/wildmat.go:70-84 | yes exactly when some `@` element matches |
| Wildmat.PoisonIs | internal/wildmat/wildmat.go:70-84 | an element poisons a text exactly when it is an `@` and a nonempty pattern that matches the text |
| Utf8.SanitizeUTF8 | internal/article/utf8.go:11-34 | the result is valid UTF-8 without NUL for every octet string, and the input itself where that is so already |
| Utf8.ValidIffEncoding | internal/article/utf8.go:11-34 | the octet-level notion of valid text is exactly the encodings of code point sequences |
| Utf8.SanitizedIdempotent | internal/article/utf8.go:11-34 | repairing twice is repairing once |
| Utf8.RepairedAppend | internal/article/utf8.go:11-34 | well-formed text in front of anything keeps its characters but the dropped control characters |
| Utf8.SanitizedValidText | internal/article/utf8.go:11-34 | valid text with a NUL loses exactly the dropped control characters |
| Utf8.SanitizedStray | internal/article/utf8.go:11-34 | a stray octet in broken text becomes the character with its number, and repair goes on behind it |
| Utf8.ControlGoes | internal/article/utf8.go:11-34 | of valid text with a NUL, exactly the characters below the space go, but for tab, line feed and carriage return |
| Utf8.NulGoes | internal/article/utf8.go:11-34 | a NUL in a text without other control characters is all that goes |
| Utf8.EncodeIs | internal/article/utf8.go:11-34 | a code point is encoded by as many octets as RFC 3629 says for it, and they hold its bits |
| Wire.Conn.ReadLine | internal/nntp/wire.go:52-83 | a line up to its line feed is read within the length limit, octet by octet, and exactly what it reports is consumed |
| Wire.LineIs | internal/nntp/wire.go:52-83 | a line of fewer octets than allowed loses one carriage return at its end; a longer one is skipped up to its end, but no further than the bound of 2^20 octets |
| Wire.UnendedIs | internal/nntp/wire.go:52-83 | input that ends before its line does is the end of the input, or a line too long |
| Wire.Conn.ReadArticle | internal/nntp/wire.go:90-120 | a dot-stuffed block is read as specified, by octets or too large, and exactly what it reports is consumed |
| Wire.BlockLineIs | internal/nntp/wire.go:90-120 | a lone dot ends a block, a dot in front of another line is taken off, and the line is added with CRLF; behind a text that is too large the rest is skipped |
| Wire.Conn.WriteDot | internal/nntp/wire.go:203-225 | the output grows by the stuffed lines and the terminator |
| Wire.SentIs | internal/nntp/wire.go:203-225 | every line is sent with CRLF, behind one more dot if it starts with a dot, and ".", CRLF at the end |
| Wire.SplitCRLF | internal/nntp/wire.go:227-248 | the splitter gives the lines of a text |
| Wire.ReadArticleOfBlock | internal/nntp/wire.go:90-120 | reading a written block gives the lines joined by CRLF, or the too-large answer by size, and stops exactly behind the terminator if and only if every stuffed line fits |
| Wire.CanonicalTravels | internal/nntp/wire.go:203-225 | a canonical text of short lines comes back as it is |
| Wire.RejoinedIffCanonical | internal/nntp/wire.go:227-248 | the lines rejoined are the text exactly when it was canonical |
| Wire.BlocksStayAligned | internal/nntp/wire.go:90-120 | a stream of blocks is read back block by block, with the rest left over |
| ArticleText.NormalizeCanonical | internal/article/article.go:44-49 | all line ends come out as CRLF, and text that has them is kept |
| HeaderLines.NormalizeLine | internal/article/article.go:44-49 | CRLF, a line feed alone and a carriage return alone all end a line, and come out as CRLF |
| ArticleText.ParsedIsWellFormed | internal/article/article.go:21-83 | whatever parses has well-formed headers and a body with CRLF line ends |
| ArticleText.RoundTrip | internal/article/article.go:21-165 | parsing a written article gives the same header map and the same body up to a final CRLF, for every order of the header map |
| ArticleText.RoundTripIff | internal/article/article.go:21-165 | the article comes back exactly when it has a header or no body |
| HeaderLines.WrittenIs | internal/article/article.go:122-163 | a header is written as one line for each of its values, with its name and ": " in front |
| HeaderLines.WrittenBody | internal/article/article.go:122-163 | an empty line and the body follow, with a line end added where the body has none |
| ArticleText.BytesEqualsStored | internal/article/article.go:165 | two serializations of one article have the same length in octets whatever order each used |
| Utf8.WidthIs | internal/article/article.go:165 | a character counts as many octets as its encoding has |
| ArticleText.StoredCopyDelivers | internal/feed/feed.go:185 | a stored copy put together again is the article as written |
| Article.Article.Parse | internal/article/article.go:21-42 | received text becomes the article of the specification, or its error; what the specification says line by line is in the rows of `HeaderLines` |
| Article.Article.ParseHeaders | internal/article/article.go:51-83 | the header loop with folding and several values for a name, or its error; what folding means is in the rows of `HeaderLines` |
| HeaderLines.UnfoldingIs | internal/article/article.go:51-83 | a header line with a value, and a continuation line behind it, are parsed as the one line with the trimmed continuation behind the value and a space, whatever other lines and body there are |
| HeaderLines.UnfoldingEmpty | internal/article/article.go:51-83 | a header line that is only a name and its colon, and a continuation line behind it, are parsed as the one line with two spaces between |
| HeaderLines.ParsesIff | internal/article/article.go:51-83 | a header block is understood exactly when each of its lines is, and otherwise gives the error of the first line that is not |
| HeaderLines.LeadingContinuation | internal/article/article.go:62-67 | a block that begins with a continuation line is refused |
| HeaderLines.NamelessStays | internal/article/article.go:55-79 | the value of a header line without a name is put in front of that of the next header |
| HeaderLines.OneHeader | internal/article/article.go:51-83 | a header on one line has the trimmed text behind its first colon as its value |
| HeaderLines.WithoutBlank | internal/article/article.go:21-36 | a text without an empty line is a header block if its last line is ended, and is not understood otherwise |
| Article.Article.Get | internal/article/article.go:85-92 | the first value of a header in any case, whichever spelling the map gives first, or nothing |
| ArticleRules.ValueIs | internal/article/article.go:85-92 | a look finds the first value of the header in whatever case its name is written, and nothing if no spelling has a value |
| Article.Article.Set | internal/article/article.go:94-101 | every spelling of the name goes and one value is set; other headers stay |
| Article.Article.Newsgroups | internal/article/article.go:107-120 | the nonblank trimmed elements of the Newsgroups header |
| ArticleRules.GroupListIff | internal/article/article.go:107-120 | a group is named exactly when some element between commas, trimmed, is its name |
| ArticleRules.GroupListNext | internal/article/article.go:107-120 | one more element adds its trimmed name at the end, if it is not blank |
| Article.Article.Wire | internal/article/article.go:122-163 | the text lists every header once, well-known names first, in an order of the map, then the body |
| Article.RankIs | internal/article/article.go:122-163 | the well-known names differ in any case, so a header belongs to at most one of them |
| Article.Article.CheckAddressed | internal/article/article.go:190-206 | the values that the looks at From, Newsgroups and Subject find decide whether and why the article is refused |
| Article.Article.InjectForIHave | internal/article/article.go:236-272 | the values that the looks at the headers find decide: a refusal with its reason and at most the Message-ID trimmed, or the article taken, with its Message-ID trimmed, the server in front of its Path and Xref dropped |
| ArticleRules.OfferedIs | internal/article/article.go:236-272 | the checks one after another: the first that fails gives the refusal, and none failing takes the article; only the refusals for the date and the Path find the Message-ID trimmed |
| ArticleRules.MessageIDIs | internal/article/article.go:315-334 | a Message-ID is valid exactly when it stands in angle brackets, has an `@`, and nothing but visible ASCII without angle brackets, 250 characters at most |
| ArticleRules.GroupNameIs | internal/article/article.go:296-313 | a group name is valid exactly when its components between dots are nonempty and of letters, digits, `+`, `-` and `_`, 255 characters at most |
| ArticleRules.PathContainsIff | internal/article/article.go:283-294 | a Path contains a name exactly when one of its hops is the trimmed name, in any case |
| Article.TakenIff | internal/article/article.go:236-272 | under some order of the header map an offered article is taken, exactly when each header that is looked at has an acceptable value |
| Article.RefusedIff | internal/article/article.go:236-272 | under some order it is refused for a reason, exactly when some value gives that reason and every header looked at before has an acceptable value |
| Article.AnyRefusalIff | internal/article/article.go:236-272 | it can be refused at all exactly when some header has an unacceptable value |
| Article.SameOutcomeIff | internal/article/article.go:236-272 | it is taken under every order or refused under every order, exactly when not both every header has an acceptable value and some header an unacceptable one |
| Article.TakenAndRefusedIff | internal/article/article.go:85-92 | it can both be taken and be refused for a reason exactly when every header has an acceptable value and some value gives that reason; the header in question then has spellings with different values |
| Article.TwoPathsExample | internal/article/article.go:262-264 | such an article: one spelling of its Path names the server, the other does not |
| Article.InjectedPath | internal/article/article.go:262-271 | a copy is taken only when some value of its Path does not name the server, and its Path, in one spelling from then on, is a value of the Path grown by the taking server; with one spelling, no value names the server |
| Article.InjectedMessageID | internal/article/article.go:251-258 | relaying keeps the Message-ID, trimmed, in one spelling |
| Article.InjectedKeeps | internal/article/article.go:236-280 | relaying drops Xref and leaves every other header as it was |
| Article.InjectedWellFormed | internal/article/article.go:236-272 | a relayed article is well-formed again, so it can be written and parsed by the next server |
| Article.Article.InjectForPost | internal/article/article.go:186-233 | a posted article gets what it lacks, or a refusal with its ground and no change |
| Article.PostProvides | internal/article/article.go:186-233 | afterwards there are a valid Message-ID, a Date, injection headers, the server first on the Path, and no Xref: for headers in one spelling every look finds this, for others some look |
| ArticleRules.PostFills | internal/article/article.go:186-233 | of headers in one spelling: the Message-ID is trimmed or given, missing dates, organization and injection line get the values of the server, and the server goes in front of the Path unless it is there |
| ArticleRules.PostLeaves | internal/article/article.go:186-233 | every other header is as it was, and Xref is gone |
| Article.PostedTwice | internal/article/article.go:186-233 | of headers that came in one spelling, injecting again at the same server changes nothing, whatever the time and new identifier would be |
| Relay.TransfersIff | internal/article/article.go:21-165 | one transfer as text, written out, parsed and taken, is an injection of the stored header map, whatever order the text had |
| Relay.TransferSendable | internal/article/article.go:262-294 | what is taken can be sent on, with one spelling of a Path that begins with the receiver; off a single Path it is the accepted Path |
| Relay.AcceptIffNotOn | internal/article/article.go:283-294 | a server takes a copy exactly when it is not on its Path |
| Relay.RelayedIff | internal/article/article.go:262-294 | a route is accepted exactly when it visits no server twice and none that the Path named before; the Path then lists the route in reverse |
| Relay.RelayBound | internal/article/article.go:262-294 | no relay chain is longer than the network has servers |
| Relay.ChainRelayed | internal/article/article.go:262-294 | along a chain of stored articles the Paths are those of the route, from an article whose Path has one spelling |
| Relay.ChainDistinct | internal/article/article.go:262-294 | whatever the first article is like, a chain of transfers visits distinct servers, no more than the network has |
| Relay.ChainIff | internal/article/article.go:236-294 | of an article with a Message-ID and one spelling of its Path, there is a chain of transfers along a route exactly when the route visits no server twice and none that the Path named |
| Relay.EveryCopyBounded | internal/nntp/session.go:1126-1211 | in every run, whatever servers forget, a copy was taken by distinct servers only and its Path names exactly these in front of the first Path |
| Relay.OfferMeans | internal/nntp/session.go:1126-1211 | a server that remembers the Message-ID or is on the Path takes nothing; any other stores a copy with its name in front of the Path, and remembers it |
| Relay.RouteRun | internal/nntp/session.go:1126-1211 | every route that visits no server twice, not the origin, and none that the first Path names, is taken by a copy in some run |
| Relay.TransfersBounded | internal/nntp/session.go:727-734 | while no server forgets the Message-ID, all transfers together are fewer than the servers, whether or not servers remember what they refuse |
| Relay.SkipPeerIff | internal/feed/feed.go:206-240 | a peer is skipped exactly when it has no host, is this server, or has a name that the Path lists |
| Relay.OfferedIsNoLoop | internal/feed/feed.go:206-240 | what is offered to a peer under one of its names is not refused there as a loop |
| Relay.NeverOfferedBack | internal/feed/feed.go:206-240 | a copy is never offered to a server that its chain went through |
| Mbox.ReadAppendAll | internal/archive/mbox.go:37-75 | reading the concatenation of appended articles gives their messages in order, without the blank ones |
| Mbox.ReadOneEachIff | internal/archive/mbox.go:37-75 | there is exactly one message for each article, in order, exactly when no article is written as white space only |
| Mbox.BlankMessageIff | internal/archive/mbox_read.go:15-63 | a message is blank exactly when the text of its article is |
| Mbox.BlankArticleIff | internal/article/article.go:122-163 | what is written of a well-formed article is blank exactly when it has no header and a blank body |
| Mbox.ReadArticles | internal/archive/mbox.go:37-75 | so of well-formed articles with headers, whatever their From fields, reading gives exactly one message for each |
| Mbox.MessageUnchangedIff | internal/archive/mbox_read.go:15-63 | the message is the article's text with trailing newlines trimmed exactly when no line starts with ">From " |
| Mbox.AppendedIs | internal/archive/mbox.go:55-69 | what is appended of a text: the separator, its lines with a mark in front of those that start with "From ", and an empty line |
| Mbox.ReadIs | internal/archive/mbox_read.go:15-63 | whatever line ends a file has, a message is its lines, without the mark in front of "From " and without line feeds at the end, if there is more than white space |
| Mbox.TrimNewlinesIs | internal/archive/mbox_read.go:23 | exactly the line feeds at the end of a message are taken off |
| Mbox.ReadJunk | internal/archive/mbox_read.go:15-63 | what stands in a file before its first separator is not read |
| Mbox.QuotedLineIsChanged | internal/archive/mbox.go:58-66 | an article with the line ">From x" as its body, whatever its headers, comes back with another text |
| Mbox.EnvelopeIsSeparator | internal/archive/mbox.go:161-176 | the envelope is one line that the reader takes as a separator |
| Mbox.EnvelopeBrackets | internal/archive/mbox.go:161-176 | the separator names what stands in the angle brackets of the From field, or MAILER-DAEMON if that is nothing |
| Mbox.EnvelopeUnclosed | internal/archive/mbox.go:161-176 | a bracket that is not closed names MAILER-DAEMON |
| Mbox.EnvelopeWord | internal/archive/mbox.go:161-176 | without brackets it names the first word of the From field |
| Spool.ReadMBoxMessages | internal/archive/mbox_read.go:15-63 | the reader's loop gives the messages of the file |
| Spool.ReadByEntries | internal/archive/mbox_read.go:15-69 | reading a file is reading its entries one by one |
| Spool.RewriteMbox | internal/archive/mbox.go:108-145 | the rewriter's loops give the rewritten file |
| Spool.RewrittenEntries | internal/archive/mbox.go:108-159 | after a rewrite the file holds exactly the entries that name no removed article, and rewriting again changes nothing |
| Spool.ReadRewrittenIff | internal/archive/mbox.go:108-145 | reading the rewritten file is filtering what was read before, exactly when no kept last message ends in a bare carriage return |
| Spool.BareEndExample | internal/archive/mbox_read.go:37-60 | a file whose only message ends in a carriage return, which the message loses in a rewrite |
| Spool.OwnFilesEnded | internal/archive/mbox.go:55-145 | no file that was appended to or rewritten ends so |
| Spool.MBox.Compose | internal/archive/mbox.go:55-69 | the text of an appended article, built line by line |
| Spool.MBox.Append | internal/archive/mbox.go:37-75 | the group's file grows by the article at its end, and the result says where it stands; no other file changes |
| Spool.MBox.Scrub | internal/archive/mbox.go:79-106 | dropped groups lose their files, others are rewritten |
| Spool.ScrubLeaves | internal/archive/mbox.go:79-106 | a rewritten group's file has exactly its entries that name no removed article, and all other files are as they were; without removed articles only the dropped files go |
| Spool.DroppedIff | internal/archive/mbox.go:147-159 | an entry names a removed article exactly when some line of it is "message-id:" in any case and, trimmed, a removed identifier |
| SpoolArticles.ArticleDroppedIff | internal/archive/mbox.go:147-159 | the entry of an article is dropped exactly when a header in some spelling of Message-ID has a removed value, or a line of its body reads like such a header |
| SpoolArticles.StoredID | internal/archive/mbox.go:147-159 | of an article with one valid Message-ID, the header part of this is that its Message-ID is removed |
| SpoolArticles.RewriteExactIff | internal/archive/mbox.go:108-145 | a rewrite leaves the file that appending the other articles gives, exactly when no kept article has a line in its body that reads like the Message-ID of a removed one |
| SpoolArticles.QuotingLosesEntry | internal/archive/mbox.go:147-159 | an article that is not removed and whose body is such a line loses its entry |
| StoreInvariant.GroupStepsKeep | internal/store/memory.go:83-182 | creating, updating and disabling groups keep the store's invariant and the numbers of every group |
| StoreInvariant.PostKeepsIff | internal/store/memory.go:520-571 | a Post keeps the invariant exactly when it fails or no group that takes the article is named twice |
| StoreInvariant.DeleteArticleKeeps | internal/store/memory.go:1018-1058 | deleting keeps the invariant and takes out exactly the one article with its numbers and queue entries; every other article, number and entry, the history and every group's High stay |
| StoreInvariant.CancelKeeps | internal/store/memory.go:998-1015 | remembering and cancelling keep the invariant; a cancelled ID is in the history with that time and its article goes, a remembered one keeps its own time, and no other ID changes |
| StoreInvariant.DeleteGroupKeeps | internal/store/memory.go:1060-1084 | removing a group keeps the invariant and drops exactly the articles filed nowhere else; the others leave this group only, and other groups, history and queue stay |
| StoreRuns.RunKeepsStore | internal/store/memory.go:520-1084 | in every run in which articles name their groups once, the tables, counters, history, queue and alerts agree after every step |
| StoreRuns.RunFromEmpty | internal/store/memory.go:63-81 | so in every run of a new store |
| StoreRuns.ArticleLeavesIff | internal/store/memory.go:998-1084 | a stored article leaves exactly when it is cancelled or purged, its only group is removed, or an expiry finds it old in each of its groups |
| StoreRuns.ForgottenIff | internal/store/memory_retention.go:239-251 | an ID leaves the history exactly by an expiry that finds it old and not stored; cancel, purge and all other steps keep it |
| StoreRuns.AcceptedTwice | internal/store/memory.go:513-525 | between two successful Posts of one Message-ID there is an expiry that dropped it |
| StoreRuns.NumberNeverReused | internal/store/memory.go:548-561 | while the group stays and no expiry takes back its top number, High never decreases, and an issued number denotes what it did or nothing, and once nothing, nothing for good |
| StoreRuns.ExpiryReusesNumbers | internal/store/memory_retention.go:228-230 | an expiry that empties a group makes the next article number 1 again |
| Memory.Memory.constructor | internal/store/memory.go:63-81 | the empty store satisfies the invariant |
| Memory.MemGroup.Issue | internal/store/memory.go:550-556 | the next number above High is issued, Low is set if it was zero, and the count grows |
| Memory.MemGroup.Remove | internal/store/memory.go:1023-1047 | the number goes, and Low becomes the least number left, or High |
| Memory.Memory.Post | internal/store/memory.go:520-571 | the objects change as specified, for duplicates, unknown groups and new articles; the store stays valid exactly when the used groups are distinct; what is filed where is in the rows of `StorePosts` |
| StorePosts.PostedIff | internal/store/memory.go:520-536 | a Post succeeds exactly when the ID is unknown and some named group exists and is not closed; otherwise it says which of the two fails and changes nothing |
| StorePosts.PostFiles | internal/store/memory.go:526-566 | the article is filed in exactly the named groups that exist and are not closed, every other group stays, and the new article has the given text and the time of the Post |
| StorePosts.PostNumbers | internal/store/memory.go:548-561 | a group named once gives the number above its High, and holds the article under it; the counters of a group grow by how often it is named |
| StorePosts.XrefIs | internal/store/memory.go:537-571 | Xref lists the groups with their numbers in the order in which the article names them, behind the trimmed prefix |
| Memory.Memory.UsedGroups | internal/store/memory.go:526-533 | the groups named by the article that exist and take articles, in order and with repetitions |
| StorePosts.UsedIs | internal/store/memory.go:526-533 | a group takes the article as often as the article names it, if it exists and is not closed |
| StorePosts.UsedInOrder | internal/store/memory.go:526-533 | the groups that take it are in the order in which it names them |
| Memory.Memory.DeleteArticle | internal/store/memory.go:1018-1058 | the article leaves every group, the index, the table and the queue, in whatever order its groups are walked; history stays |
| Memory.Memory.RememberMessageID | internal/store/memory.go:998-1005 | an unknown ID gets the current time, a known one keeps its own |
| Memory.Memory.CancelMessageID | internal/store/memory.go:1007-1015 | the ID is known afterwards and the article, if stored, is deleted |
| Memory.Memory.DeleteGroup | internal/store/memory.go:1060-1084 | the group leaves its articles, those left with none are dropped, and its tables go |
| Memory.Memory.EnsureGroup | internal/store/memory.go:83-112 | a group is created or updated; an ISC origin becomes local, a control origin stays |
| Memory.Memory.EnsureGroupISC | internal/store/memory.go:123-146 | a group from the ISC list is created or updated only if it came from there |
| Memory.Memory.ApplyControlGroup | internal/store/memory.go:148-167 | a group is created or updated by a control message |
| Memory.Memory.DisableControlGroup | internal/store/memory.go:169-182 | a group is closed, or created closed |
| StoreGroups.CreatedIs | internal/store/memory.go:83-167 | a new group has no articles, the given description and status, open if none is given, and its source as origin; nothing else changes |
| StoreGroups.UpdatedIs | internal/store/memory.go:83-167 | an update keeps a group's articles and retention, and its description if none is given; the ISC list leaves groups that another source has named, and a group of a control message stays one |
| StoreGroups.ClosedIs | internal/store/memory.go:169-182 | closing leaves everything of a group but its status and origin |
| StoreGroups.ClosedTakesNothing | internal/store/memory.go:169-182 | a closed group takes no article until it is opened again |
| StoreGroups.StandingNeverFalls | internal/store/memory.go:83-182 | however a group is named, its origin never falls back from control to local or from local to the ISC list |
| Memory.Memory.SetGroupRetention | internal/store/memory_retention.go:190-200 | retention and mode of an existing group change, nothing else |
| Memory.Memory.Expire | internal/store/memory_retention.go:202-253 | the pass over shared objects, in any map order, does what is specified and returns exact counts; what expires by which age is in the row of `StoreExpire.ExpiryByAge` |
| StoreExpire.ExpiryByAge | internal/store/memory_retention.go:202-251 | a filing goes exactly when its group has a positive number of days as retention and its article was stored earlier than that many days before; its number goes with it, the article stays while some filing does, and an ID is forgotten exactly when it is not stored and older than the given days |
| StoreExpire.ExpireIsSwept | internal/store/memory_retention.go:207-251 | going through the groups one by one in any order and then sweeping is the specified expiry |
| StoreExpire.ExpireFilings | internal/store/memory_retention.go:207-227 | exactly the filings go whose group has a positive retention and whose article was stored before its cutoff |
| StoreExpire.ExpireSurvivors | internal/store/memory_retention.go:234-239 | an article survives exactly when some group still files it, with its text unchanged |
| StoreExpire.ExpireLeaves | internal/store/memory_retention.go:202-253 | groups without retention and the queue are untouched, and history loses exactly the old IDs that are not stored |
| StoreExpire.ExpireKeeps | internal/store/memory_retention.go:202-253 | expiry keeps the invariant |
| StoreExpire.ExpireHighIff | internal/store/memory_retention.go:228-233 | High stays exactly when the top number stays; otherwise the next number was issued before |
| StoreExpire.RemovedIsExact | internal/store/memory_retention.go:202-253 | the three counts are the numbers of expired filings, of articles left without a group, and of dropped IDs |
| Memory.Memory.EnqueueFeed | internal/store/memory.go:1086-1100 | one entry is added unless the peer has the article queued |
| StoreFeed.EnqueuedIsClaimed | internal/store/memory.go:1086-1122 | an article queued for a peer is given to a claim at any time from then on, unless as many entries as the limit stand in front of it that may be tried |
| StoreFeed.EnqueuedOnce | internal/store/memory.go:1086-1093 | an article that waits for a peer is not queued twice |
| Memory.Memory.ClaimFeedDue | internal/store/memory.go:1102-1122 | due entries are claimed from the front up to the limit, each in place with one more attempt and a lease |
| StoreFeed.ClaimIs | internal/store/memory.go:1102-1122 | an entry is claimed exactly when its time has come and fewer than the limit, 32 by default, stand in front of it whose time has come; it has one more attempt then and rests for two minutes |
| StoreFeed.ClaimedWere | internal/store/memory.go:1102-1122 | what a claim gives out was such an entry, and stands in the queue as given |
| Memory.Memory.CompleteFeed | internal/store/memory.go:1124-1135 | the entry goes, the others keep their order |
| Memory.Memory.FailFeed | internal/store/memory.go:1137-1151 | the entry gets the error and its next time |
| StoreFeed.FailIs | internal/store/memory.go:1137-1151 | the failed entry may be tried again after the given delay, or after two minutes; every other entry is as it was |
| Memory.Memory.FlushFeedQueue | internal/store/memory.go:1153-1167 | the entries of one peer go, or all, and the count is exact |
| StoreFeed.FlushIs | internal/store/memory.go:1153-1167 | exactly the entries of the peer go, or all, and their number is reported |
| StoreFeed.EnqueueKeeps | internal/store/memory.go:1086-1100 | pairs of peer and message stay unique and IDs increase; the queue grows at its end |
| StoreFeed.QueueStepsKeep | internal/store/memory.go:1102-1167 | claiming, completing, failing and flushing keep the queue's order and uniqueness |
| StoreFeed.ClaimEffect | internal/store/memory.go:1102-1122 | what is claimed was due and is leased, what is not claimed is unchanged, and a due entry is left only when the limit is reached |
| StoreFeed.BackoffMinutes | internal/feed/feed.go:154-163 | the wait after a failure is as many minutes as attempts, at most thirty |
| StoreFeed.NoDoubleDelivery | internal/feed/feed.go:128-152 | in particular, in every interleaving of workers in which each delivery settles within its lease, no entry has two holders |
| StoreFeed.FeedIsStore | internal/feed/feed.go:128-152 | every step of this feed does to the queue what the store's operation does |
| StoreFeed.OverrunIsClaimedTwice | internal/feed/feed.go:128-152 | a claim of any limit gives some entry a second holder exactly when an entry whose delivery has outlasted its lease is due within its reach |
| StoreFeed.StepHolders | internal/feed/feed.go:128-152 | no other step ever gives an entry a second holder, and every step that does not keeps the queue in order and held entries leased |
| StoreFeed.OneHolderIff | internal/feed/feed.go:128-152 | in every run, no entry ever has two holders exactly when no claim takes an entry whose delivery is still in progress beyond its lease |
| StoreFeed.OverrunRun | internal/feed/feed.go:128-152 | a run from an empty queue that gets there: offer, claim, the lease runs out, claim |
| StoreRuns.EntryLeavesIff | internal/store/memory.go:1018-1167 | under every step of the store, an entry leaves the queue exactly when it is completed, its peer is flushed, or its stored article is cancelled or purged |
| StoreRuns.EntryOutlivesIff | internal/store/memory.go:1060-1084 | an entry outlives its stored article exactly when the article goes by removing its only group or by an expiry |
| Feeder.Feeder.Offer | internal/feed/feed.go:55-94 | the loop over the peers queues the article as specified and counts the peers that get it |
| Feeder.OfferedIff | internal/feed/feed.go:80-92 | after an offer an article is queued for a peer exactly when it was or the peer is not skipped and wants it; the queue only grows at its end |
| Feeder.Feeder.DrainOnce | internal/feed/feed.go:128-152 | due entries are claimed and settled one after another as specified, and accepted and failed deliveries are counted |
| Feeder.DrainSettles | internal/feed/feed.go:128-152 | every claimed entry is gone or waits its retry delay with its error; every other entry is as it was |
| Memory.Memory.NoteAccept | internal/store/memory_retention.go:36-96 | accepts are noted and groups get a retention by seed or flood as specified |
| StoreAlerts.AcceptIs | internal/store/memory_retention.go:36-96 | a group that is not whitelisted gets the short retention, and an open alert, exactly when it has none and the seed wildmat names it, or when the article is binary and, of the accepts within the window, enough are binary and they are a large enough part; nothing else changes |
| StoreAlerts.AcceptLeaves | internal/store/memory_retention.go:49-59 | a whitelisted group only has the accept noted, and a name that no group has is passed over |
| StoreAlerts.AcceptNext | internal/store/memory_retention.go:49-95 | the groups of an article are noted one after another |
| Memory.Memory.OpenAlertIndex | internal/store/memory_retention.go:98-104 | the first open alert of the group, or none |
| Memory.Memory.CountWindow | internal/store/memory_retention.go:68-78 | the accepts since a time, all and binary ones |
| Memory.Memory.ResolveGroupAlert | internal/store/memory_retention.go:151-188 | the first alert with the ID is settled with its group if the action is one of the four in any case; an unknown alert or action is its own error and changes nothing |
| StoreAlerts.ResolveIs | internal/store/memory_retention.go:151-188 | the alert's group is closed and blocked, whitelisted, left alone or reset, and the alert settled accordingly; no other group or alert changes |
| StoreAlerts.ResolveUnknown | internal/store/memory_retention.go:151-188 | an unknown alert changes nothing |
| StoreAlerts.NoteAcceptKeeps | internal/store/memory_retention.go:36-110 | a group has at most one open alert, of a group only retention and mode change, and a whitelisted group is never touched |
| StoreRuns.WhitelistStep | internal/store/memory_retention.go:36-188 | of a whitelisted group, every step of the store leaves the retention, except an administrator setting it or settling an alert of the group, and a purge that applies a blocked alert; these set it as specified |
| StoreRuns.WhitelistKept | internal/store/memory_retention.go:36-188 | so in every run a whitelisted group keeps its retention until one of these, or its removal |
| StoreRuns.WhitelistHolds | internal/store/memory_retention.go:151-188 | after an administrator whitelists a group by its alert, it has no retention until one of these, whatever is posted and however many binaries are noted |
| Memory.Memory.PurgeUnwantedArticles | internal/store/memory_purge.go:8-77 | the articles in banned or blocked groups are listed once each and deleted; the groups, crossposts and articles reported are exact and in ascending order |
| Memory.Memory.GroupsUnwanted | internal/store/unwanted.go:12-33 | yes exactly when one of the groups is banned or blocked |
| Memory.MatchesAny | internal/store/unwanted.go:35-48 | yes exactly when a nonblank pattern matches the group |
| StorePurge.PurgeExact | internal/store/memory_purge.go:8-77 | exactly the unwanted articles go, with their queue entries; every other article, all history, all other entries and every High stay |
| StorePurge.PurgedIff | internal/store/memory_purge.go:13-77 | an article goes exactly when one of its groups is named by a ban pattern, is blocked, or has a blocked alert |
| StorePurge.PurgeBlocks | internal/store/memory_purge.go:13-24 | a group with a blocked alert is closed, blocked and without retention afterwards; another keeps its status and retention |
| StorePurge.GateIs | internal/store/unwanted.go:12-48 | the gate refuses an article exactly when one of its groups is named by a ban pattern or blocked |
| StorePurge.PurgedPassesGate | internal/store/unwanted.go:12-33 | after a purge the gate refuses the groups of no stored article |
| StorePurge.PurgeOrder | internal/store/memory_purge.go:61-75 | the order of deletion does not matter for articles, index, history, queue and numbers |
| Memory.Memory.ArticleNumbers | internal/store/memory.go:349-363 | the numbers of a group in a range, in order |
| Memory.Memory.Next | internal/store/memory.go:573-589 | the article with the first listed number above the cursor |
| Memory.Memory.Prev | internal/store/memory.go:591-608 | the article with the last listed number below the cursor |
| Memory.Memory.GetByNumber | internal/store/memory.go:365-375 | the article that the index has under the number, or none |
| ReaderSession.Session.CmdGroup | internal/nntp/session.go:222-242 | GROUP selects an existing group, moves to its Low, and answers with its counters |
| StoreRead.GroupMeans | internal/nntp/session.go:222-242 | GROUP answers with as many numbers as the group has, none below the low and none above the high it reports, and moves to the low |
| ReaderSession.Session.CmdListgroup | internal/nntp/session.go:244-284 | LISTGROUP selects the group even if it does not understand the range, and lists the numbers in the range |
| StoreRead.ListgroupMeans | internal/nntp/session.go:244-284 | with one number, an open or a closed range LISTGROUP lists exactly the numbers of the group in it |
| ReaderSession.Session.CmdNext | internal/nntp/session.go:450-466 | NEXT moves to the next article or answers why not |
| StoreRead.NextMeans | internal/nntp/session.go:450-466 | NEXT moves to the least number above the place and answers with the article filed there; without one nothing moves |
| ReaderSession.Session.CmdLast | internal/nntp/session.go:468-484 | LAST moves to the previous article or answers why not |
| StoreRead.LastMeans | internal/nntp/session.go:468-484 | LAST moves to the greatest number below the place, likewise |
| ReaderSession.Session.CmdStat | internal/nntp/session.go:429-448 | STAT with a number moves to an article with that number only |
| StoreRead.NowhereMeans | internal/nntp/session.go:429-484 | without a group, or off every article, NEXT and LAST say so; STAT moves exactly to the numbers of the group |
| StoreRead.WalkVisitsAll | internal/nntp/session.go:222-466 | on a quiet store, GROUP and then NEXT until it fails meets exactly the numbers that LISTGROUP reports, once each and ascending |
| StoreRead.LastUndoesNextIff | internal/nntp/session.go:450-484 | after a NEXT, LAST goes back exactly when the cursor was on a stored article |
| StoreRead.NextUndoesLastIff | internal/nntp/session.go:450-484 | after a LAST, NEXT goes back exactly when the cursor was on a stored article |
| StoreRead.RetrievedIsFiled | internal/nntp/session.go:392-484 | NEXT, LAST and STAT answer with the article filed under the number they move to |
| StoreStart.BumpStartsIff | internal/store/memory.go:550-556 | issuing a number leaves Low naming an article exactly when there was no Low or it named one before |
| StoreStart.RemoveStarts | internal/store/memory.go:1037-1045 | taking a number out leaves Low naming an article whenever one is left |
| StoreStart.RenumberedStarts | internal/store/memory_retention.go:228-233 | so does an expiry of a group with a retention |
| StoreStart.StepGap | internal/store/memory.go:520-1084 | after a step of the store GROUP starts at a number that names nothing exactly when the step posts to a group emptied with a Low, or it did so before and no article of the group is cancelled or purged, the group is not removed, and no expiry finds it with a retention |
| StoreStart.GroupStartsIff | internal/nntp/session.go:222-242 | in every run of a new store, GROUP on a group with articles starts at one of them exactly when no post found the group emptied with a Low, or one of these steps came since |
| StoreStart.LowMayNameNothing | internal/store/memory.go:1037-1045 | a run that gets there: post, cancel, post; GROUP moves to 1 and the group has number 2 only |
| StoreRead.RangeListedIff | internal/nntp/session.go:1339-1363 | a range `a-b` lists the numbers from a to b exactly when b is not zero or no number is at or above a |
| ContentStats.Statistics.Record | internal/store/memory.go:1187-1231 | every count moves by how often the article answers for it, by group, day, poster and site, and totals stay the sums of their days |
| ContentStats.PathStatSites | internal/store/postgres_stats.go:177-203 | the loop over the hops of a Path gives its sites |
| ContentStats.StatSitesAre | internal/store/postgres_stats.go:177-203 | the sites of a Path are hops of it, each once in any case: exactly those that are not blank, not left out, and not the mark of its end |
| ContentStats.NextSite | internal/store/postgres_stats.go:177-203 | one more hop is one more site at the end, unless it is blank, left out, or there already in some case |
| ContentStats.PathFromHeaders | internal/store/postgres_stats.go:415-423 | the value of the first Path line of a header block, in any case |
| ContentStats.PathIs | internal/store/postgres_stats.go:415-423 | the first line whose name is Path, in any case, gives the Path; without one it is empty |
| ContentStats.Statistics.Refresh | internal/store/memory.go:1293-1333 | afterwards every count, by group, day, poster and site, is the number of stored articles that answer for it, and totals are the sums of their days |
| ContentStats.TotalIsCount | internal/store/memory.go:1293-1333 | after a recount a group's text and binary articles add up to the group's own count |
| ContentStats.GroupCountsAre | internal/store/memory.go:1293-1333 | after a recount a group's text and binary counts, in total and of every day of the clock, are the numbers of its text and binary articles |
| ContentStats.DayCountsAre | internal/store/memory.go:1293-1333 | and the counts of a poster and a site are the numbers of their articles of the day |
| ContentStats.GroupTally | internal/store/memory.go:1204-1217 | counting an article in a group moves exactly that group's total, its sum over days and its day by one |
| ContentStats.CountedBalances | internal/store/memory.go:1293-1333 | counts that are numbers of stored articles have totals equal to the sums of their days |
| Inpaths.PathStats.SiteIndex | internal/inpaths/stats.go:62-70 | a known site keeps its index, a new one gets the next |
| Inpaths.PathStats.Hops | internal/inpaths/stats.go:34-60 | the hops of a path that count |
| Inpaths.HopsAre | internal/inpaths/stats.go:34-60 | a hop counts as often as the path names it, if it is not blank, not the mark of a path's end in any case, and has a letter |
| Inpaths.GoodHopsInOrder | internal/inpaths/stats.go:48-60 | the hops that count keep their order |
| Inpaths.PathStats.AddPath | internal/inpaths/stats.go:73-92 | hops, neighbours, the article count and the times change as specified |
| Inpaths.AddPathCounts | internal/inpaths/stats.go:73-92 | a path adds to every hop's count how often it stands in it, and to every link's count how often the link's first site follows its second; it is one more article, and the last so far, exactly if a hop counts |
| Inpaths.PathStats.Merge | internal/inpaths/stats.go:95-115 | the other's counts are added, in whatever order its map gives the sites, also when it is the same object |
| Inpaths.MergedIs | internal/inpaths/stats.go:95-115 | counts and articles are added, and the period runs from the earlier start to the later end |
| Inpaths.PartitionsAgree | internal/inpaths/stats.go:73-115 | however paths are spread over logs and merged, the counts and sites are those of one log with all of them |
| Inpaths.GatheringSound | internal/inpaths/stats.go:48-115 | every gathering has its sites indexed, positive counts, and links between two of its sites |
| Inpaths.MergeIntoFresh | internal/inpaths/stats.go:95-107 | merging into statistics without articles takes over the start, and the end exactly when they were not created later |
| Dump.WriteDump | internal/inpaths/dump.go:13-75 | the dump text with its links in ascending order; none without articles |
| Dump.LayoutIs | internal/inpaths/dump.go:13-75 | the lines of a dump: version, times in seconds with their middle, numbers of sites and articles; the sites; the links; the number of links |
| Dump.SiteLineIs | internal/inpaths/dump.go:27-37 | the sites stand in their order, each with its count |
| Dump.RelLineIs | internal/inpaths/dump.go:38-70 | a link is written as the places of its two sites, with its count unless that is one |
| Dump.SortedRelKeys | internal/inpaths/dump.go:85-99 | the keys of the links, each once, in ascending order |
| Dump.ReadDump | internal/inpaths/dump.go:102-149 | the statistics of a dump text, or which of its errors it has |
| Dump.NoDump | internal/inpaths/dump.go:102-118 | a text with nothing in it, without the mark in its first line, or with fewer than seven words there is no dump, and which of the three is said |
| Dump.CountRels | internal/inpaths/dump.go:161-193 | every link in the text is counted again under the names of its sites |
| Dump.DumpRoundTripIff | internal/inpaths/dump.go:13-193 | a dump gives back sites in order, counts, links, articles and times to the second exactly when no site has white space and every line fits into the scanner's buffer, whatever the order of the links |
| InnPeer.Peer.Defaults | internal/inn/peer.go:32-55 | empty fields are filled, hosts from each other |
| InnText.DefaultsAre | internal/inn/peer.go:32-55 | the two hosts stand in for each other, the port is 119, the patterns `*` and the flags `Tm` where nothing is given, and a peer without name and host is called peer |
| InnText.NameIs | internal/inn/peer.go:57-66 | a peer without a name is called by its host up to the first dot |
| InnPeer.Peer.ApplyPatterns | internal/inn/peer.go:306-321 | patterns and distributions are cut at the first slash; empty parts change nothing |
| InnText.PatternFieldIs | internal/inn/peer.go:306-321 | what stands before the first slash is the patterns, what follows the distributions, and an empty part changes nothing |
| InnPeer.Peer.ApplyLine | internal/inn/peer.go:243-293 | a newsfeeds line for a peer or for the server itself is taken over, others are not |
| InnText.LineAppliesIff | internal/inn/peer.go:251-293 | a line is taken over exactly when it is for the server itself in any case, its last field names innfeed in any case, or that field has a `!` and the site does not end in one; the server's own line leaves the name |
| InnText.FieldsAre | internal/inn/peer.go:243-249 | a line has four fields between colons, the last of which may have colons, and a nonblank first |
| InnPeer.Unfold | internal/inn/peer.go:216-239 | lines that end in a backslash are put together |
| InnText.ContinuedIs | internal/inn/peer.go:216-239 | a line that ends in a backslash, and the next line, are read as one: what stands before the backslash, without blanks at its end, and the trimmed next line |
| InnText.UncontinuedIs | internal/inn/peer.go:216-239 | any other line stands for itself, without blanks at its end |
| InnPeer.ReadPaste | internal/inn/peer.go:90-207 | the paste loop gives the peer that a paste describes, or none, with its warnings and the fields that it mentions |
| InnPeer.PasteMentions | internal/inn/peer.go:86-207 | a paste describes a peer exactly when it mentions a field, and a field that it does not mention has nothing but its default |
| InnText.FragmentsAre | internal/inn/peer.go:424-452 | the text of the three fragments |
| InnPeer.PasteRoundTrip | internal/inn/peer.go:424-452 | a paste of the three fragments of a well-formed peer, in any order, gives back every field and lists it as mentioned |

## Left out

- The Postgres store: SQL semantics are not part of this model; the in-memory store is its in-process counterpart.
- Administration pages, configuration, listeners, schedules, SMTP, TLS, authentication, DNS rules, the cleanfeed process: calls into code outside this model.
- Accepting an offered article: cleanfeed, the date cutoff, subscriptions, control messages and the rejection of unwanted groups between injection and Post are not modelled; the relay model keeps the history and Path checks of that step.
- Feeder.Feeder.Offer: which peers want an article by their flags and patterns, and how the offered text parses, are parameters.
- Feeder.Feeder.DrainOnce: the outcome of each delivery, with the connection to the peer behind it, is a parameter.
- Text modules take a string as code points, so invalid UTF-8 inside article, mbox and fragment text is not modelled there; `Wire` and `Utf8` work on octets.
- Case folding is exact for ASCII with U+017F and U+212A; other letters, and lowering of letters outside ASCII, are not modelled. `Inpaths` takes the class of letters as a parameter.
- Numbers and times are unbounded: 64-bit overflow of counters, article numbers and durations is not modelled.
- The ratio of a flood is a real number; rounding of floating point is not modelled.
- Clocks are parameters; one call uses one time where the program reads the clock twice in a row. Mutexes are atomic steps.
- Subscriptions and read markers of users, which removing a group also cleans, are not in the store.
- Adding and removing ban patterns: one assignment each; the list is a field that the purge and the gate read.
- Rankings and the display of the content statistics are left out.
- The statistics tables stand in an object of their own beside the store, which the program keeps as fields of the store.
- The counter of alert IDs is read as 1 while it is 0; the program sets it to 1 at the first use.
- Alert details are values instead of formatted text.
- File names and directories of the spool: a file is the text of its group, and offsets into it count code points instead of octets.
- The parsers for a single INN fragment and merging of peers are left out; the fields that a paste mentions are values instead of JSON names.
- MIME and charset decoding, checkgroups, watchdog modes and moderator templates: not on the path of the properties above.

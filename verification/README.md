# A verified model of the reverse proxy and of its JSON engine

The repository is a reverse proxy. A *service* behind a firewall keeps a control connection to a
central *server* and registers an id there. A *client* asks the server for an id; the server tells
the service, whose worker calls back over a fresh connection; the server pairs the two connections
and a child process relays bytes between them. All messages are JSON texts, made and read by the
JSON engine in `src/json.hpp`.

This project models both in Dafny and proves what their code and documentation promise, or exactly
when the code keeps the promise.

**The JSON engine**

| module | what it models |
|---|---|
| `Results`, `ByteStrings`, `Decimals` | exceptions as results; byte strings, their order, and map traversal in key order; `to_string`, `stoi`, `atoi` |
| `Values`, `Orderings` | JSON values, `operator==`, `operator<` |
| `Pointers` | JSON Pointer text (RFC 6901): `replace_substring`, `escape`, `unescape`, `split`, `to_string` |
| `Patches`, `PatchLaws`, `Diffs` | `patch`, what its operations do, and `diff` (RFC 6902) |
| `Flattening` | `flatten`, `get_and_create`, `unflatten` |
| `Lexical`, `Lexers` | the tokens of sections 2, 3, 6 and 7 of RFC 7159, and the scanner with its buffer, cursors and refill |
| `Strings`, `Unicode`, `Numbers` | `escape_string`, `get_string`, `to_unicode`, `get_number` |
| `Parsers` | the recursive-descent parser and the grammar of sections 2 to 5 of RFC 7159 |
| `Printers`, `Layouts` | `dump`, the round trip through lexer and parser, and the two layouts |
| `Texts` | the grammar of RFC 7159 over bytes, without a scanner |

**The proxy**

| module | what it models |
|---|---|
| `Protocols` | requests and responses as texts |
| `Brokers` | the server object: its tables, its descriptors and one request |
| `Services` | the service's control loop and its workers |
| `Rendezvous` | server, services, workers and the accept queue as one transition system |
| `Relays` | `exchangeData`, and chains of relays as a transition system |

Code that changes state step by step is a class or a method with loops, proved against a
specification function; the promised properties are then lemmas about those functions, over all
inputs and all runs. The longest chains of argument are:

* `Diffs.PatchOfDiff`: a frame property (an operation whose path starts with a token acts on that
  child alone) carries `diff` followed by `patch` through the recursion;
* `Printers.DumpRoundTrip`: printer, scanner, token values, grammar and parser in one equation;
* `Flattening.UnflattenOfFlatten`: projecting the pointer texts, in key order, onto each child;
* `Rendezvous.TokenDiscipline` and `Rendezvous.PairedWithServiceAskedFor`: descriptor numbers are
  reused, so an inductive invariant ties each number to a connection over the whole system;
* `Lexers.Lexer.Scan`, `Lexical.MaximalMunch` and `Texts.AcceptsTheGrammar`: the buffer-level scanner
  refines a function, that function is maximal munch for the lexical grammar, and with the parser
  behind it exactly the texts of the grammar are accepted.

## Where the code keeps its promises only under a condition

* `source.patch(diff(source, target)) == target` (`src/json.hpp:10370`) holds exactly if no index
  that `diff` writes exceeds 2^31 - 1, because `patch` reads indices with `stoi`
  (`Diffs.PatchOfDiff`, `Diffs.LongArrayFails`).
* `j == j.flatten().unflatten()` (`src/json.hpp:10039`) holds, for `operator==`, exactly if `j` has no empty
  container, no object whose member "0" is visited first, and no index beyond `stoi`
  (`Flattening.UnflattenOfFlatten`, `Flattening.ZeroMemberIsLost`). The documentation names only
  the empty containers.
* `operator<` decides between any two values, but it is transitive exactly as long as no unsigned
  integer exceeds 2^63 - 1 (`Orderings.TransitiveIffSigned`).
* The overflow test of `get_number` misses some literals that do not fit, and reads them as other
  integers: the one for 10 * 2^61 as 2^62 (`Numbers.OverflowMissed`). No literal of `n` digits is
  misread if and only if `n` is at most 19, with and without a minus sign
  (`Numbers.NoneMisreadUpTo19`).
* Requests fit the packet for all ids of a length exactly up to 163 bytes
  (`Protocols.RequestsFitUpTo163`).
* Of RFC 6902, `add` only needs the place that its first token names, and creates what is missing
  below (`PatchLaws.AddNeedsTop`, `PatchLaws.AddedIsThere`), and `copy` overwrites in arrays
  (`PatchLaws.CopyElementOverwrites`).
* A lone low surrogate in a string token is let through as three octets (`Unicode.Denotes`).
* The code has no time-out. As long as the server can accept a connection, a pending client can
  still get its reply if and only if its forwarded request, a worker on it or a report on it is
  still there (`Rendezvous.AnswerableIffToken`).

## Model

| member | source | states |
|---|---|---|
| Values.EqReflexive | src/json.hpp:5458-5531 | every value equals itself, through nested arrays and objects |
| Values.EqSymmetric | src/json.hpp:5458-5531 | equality is symmetric, also between signed and unsigned integers |
| Values.EqTransitive | src/json.hpp:5458-5531 | equality is transitive, also across the cast of unsigned integers |
| Orderings.Trichotomy | src/json.hpp:5642-5718 | for all values exactly one of `a < b`, `a == b`, `b < a` |
| Orderings.ScalarOrder | src/json.hpp:5663-5670 | strings compare by the first byte that differs, unsigned, a proper prefix coming first; false comes before true |
| Orderings.NumberOrder | src/json.hpp:5671-5712 | numbers compare by value; between types an unsigned one above 2^63 - 1 counts as the negative number with its bits |
| Orderings.ObjectsLexicographic | src/json.hpp:5653-5657 | objects compare by the first pair in key order that differs, its key before its value, or by the number of pairs |
| Orderings.TransitiveIffSigned | src/json.hpp:5642-5718 | values with unsigned integers up to `max` are ordered transitively if and only if `max` fits a signed integer |
| Orderings.ArraysLexicographic | src/json.hpp:5642-5655 | arrays compare by their first pair of unequal elements, or by length if there is none |
| Orderings.TypeOrder | src/json.hpp:5400-5432 | null < boolean < number < object < array < string |
| Orderings.CompareComposes | src/json.hpp:5642-5718 | comparisons of `a` with `b` and `b` with `c` determine that of `a` with `c`, through containers |
| Decimals.StoiOfText | src/json.hpp:10177-10186 | `stoi` on any text: white space, sign, digits, and what follows |
| Decimals.StoiOfToString | src/json.hpp:10177-10186 | reading an index text back gives the index, and fails exactly above 2^31 - 1 |
| Decimals.AtoiOfToString | src/server.cpp:115-179 | `atoi` undoes `to_string` on every descriptor number |
| Pointers.ReplaceSubstring | src/json.hpp:9742-9754 | the in-place loop ends and equals one left-to-right substitution without overlaps, even if the replacement contains the search text |
| Pointers.EscapeIsBytewise | src/json.hpp:9757-9763 | the two passes of `escape` together replace each byte on its own |
| Pointers.UnescapeIsBytewise | src/json.hpp:9766-9772 | the two passes of `unescape` together read each escape once |
| Pointers.EscapeRoundTrip | src/json.hpp:9756-9772 | `unescape` and `escape` undo each other, in this order of the passes |
| Pointers.SplitText | src/json.hpp:9667-9720 | the loop with `start` and `slash` computes the tokens, or rejects the text |
| Pointers.SplitOfText | src/json.hpp:9331-9339 | splitting the text of any token list gives the list back |
| Pointers.TextOfSplit | src/json.hpp:9667-9720 | `split` accepts exactly the texts of section 3 of RFC 6901 and then `to_string` gives the text back |
| Pointers.ToTextInjective | src/json.hpp:9331-9339 | different token lists have different texts |
| Patches.Patch | src/json.hpp:10100-10356 | `patch` applies the operations in order to a copy; a patch that is no array, a malformed operation or one that fails gives the error of the code |
| PatchLaws.OperationIsRead | src/json.hpp:10237-10356 | an element is read as an operation if and only if its members describe that operation |
| PatchLaws.AddToArray | src/json.hpp:10170-10191 | `add` at any index puts the value there and moves the elements from there on by one; beyond the end it throws |
| PatchLaws.DashIsTheEnd | src/json.hpp:10172-10176 | `-` is the place behind the last element |
| PatchLaws.RemoveFromArray | src/json.hpp:10223-10227 | `remove` takes out just the element at the index |
| PatchLaws.ArrayRoundTrips | src/json.hpp:10137-10228 | removing undoes adding, and adding back undoes removing, at every index |
| PatchLaws.BadIndex | src/json.hpp:10177-10183 | texts that are no index, and negative ones, are errors |
| PatchLaws.AddToObject | src/json.hpp:10160-10167 | `add` sets one member and keeps all others |
| PatchLaws.RemoveFromObject | src/json.hpp:10209-10222 | `remove` needs the member, and keeps all others |
| PatchLaws.OtherParents | src/json.hpp:10137-10228 | adding to and removing from primitives and the root |
| PatchLaws.AccessStep | src/json.hpp:9526-9576 | checked access goes through members and elements and nothing else |
| PatchLaws.NullBecomes | src/json.hpp:9459-9520 | unchecked access makes null an array below a number or `-`, and otherwise an object |
| PatchLaws.ReplaceLaws | src/json.hpp:10292-10297 | `replace` needs the place, sets it, and changes nothing else |
| PatchLaws.BelowParent | src/json.hpp:10137-10228 | anywhere in the document, `add` and `remove` replace the parent by what they make of it |
| PatchLaws.AddedIsThere | src/json.hpp:10137-10203 | whenever `add` succeeds, the value is then found at its path |
| PatchLaws.TestLaws | src/json.hpp:10326-10346 | `test` succeeds exactly on an equal value and changes nothing |
| PatchLaws.MoveElement | src/json.hpp:10299-10313 | `move` in an array takes the element out first |
| PatchLaws.MoveMember | src/json.hpp:10299-10313 | `move` in an object renames a member |
| PatchLaws.CopyElementOverwrites | src/json.hpp:10316-10323 | `copy` in an array overwrites the target element |
| Patches.ApplyAllConcat | src/json.hpp:10237-10356 | applying two lists of operations in a row is applying their concatenation |
| Diffs.OpUnderMember | src/json.hpp:10137-10228 | an operation below an object member acts on that member alone |
| Diffs.OpUnderElement | src/json.hpp:10137-10228 | the same below an array index, which has to fit an `int` |
| Diffs.AllUnderMember | src/json.hpp:10237-10356 | the same for a list of operations |
| Diffs.AllUnderElement | src/json.hpp:10237-10356 | the same for a list of operations below an index |
| Diffs.ApplyDiff | src/json.hpp:10393-10523 | the operations of `diff` succeed in order exactly if the indices fit, and give `Merged` |
| Diffs.MergedEqualsTarget | src/json.hpp:10393-10523 | what they give compares equal to the target |
| Diffs.DiffDocument | src/json.hpp:10393-10523 | the recursive, appending `diff` builds the patch document of the specified operations, paths included |
| Diffs.RemoveRemaining | src/json.hpp:10435-10448 | inserting each removal in front of the others leaves them in descending order |
| Diffs.PatchEncoded | src/json.hpp:10237-10356 | reading such a patch document back applies those operations |
| Diffs.PatchOfDiff | src/json.hpp:10360-10523 | patching with the difference succeeds if and only if the indices fit, and then yields the target |
| Diffs.DiffIsJustified | src/json.hpp:10393-10523 | every operation of `diff` has its reason: it replaces only what differs and cannot be compared further, adds what only the target has, and removes what only the source has |
| Diffs.SmallArraysFit | src/json.hpp:10360-10523 | indices fit whenever no array is longer than 2^31 |
| Diffs.LongArrayFails | src/json.hpp:10205-10228 | patching an array of more than 2^31 nulls with its difference from the empty array throws |
| Flattening.Flatten | src/json.hpp:9781-9829 | the recursive, accumulating `flatten` computes `Flat` |
| Flattening.FlatHoldsLeaves | src/json.hpp:9781-9829 | the flattened object holds exactly the leaves, each under the text of its path |
| Flattening.Unflatten | src/json.hpp:9839-9865 | `unflatten` assigns the members in key order through `get_and_create`, or throws as the code does |
| Flattening.CreatingLaws | src/json.hpp:9384-9438 | what `get_and_create` makes of null, and where it throws |
| Flattening.PutIsThere | src/json.hpp:9384-9438 | what was assigned is then found at the path |
| Flattening.UnflattenNeeds | src/json.hpp:9839-9865 | `unflatten` accepts nothing but primitives under valid pointer texts |
| Flattening.RunObjectAt | src/json.hpp:9384-9438 | assigning along paths in an object changes each member by the assignments below it alone |
| Flattening.RunArrayAt | src/json.hpp:9384-9438 | the same for arrays, which grow by null values where indices come in text order |
| Flattening.Rebuild | src/json.hpp:9839-9865 | assigning all leaves of a value in text order gives an equal value if and only if it is faithful, and then the identical one |
| Flattening.UnflattenOfFlatten | src/json.hpp:10016-10053 | flattening and unflattening gives a value that compares equal if and only if the value is faithful, and then the identical one |
| Flattening.ZeroMemberIsLost | src/json.hpp:9396-9410 | what comes back from an object with the single member "0" does not compare equal to it |
| Lexical.MaximalMunch | src/json.hpp:7779-8559 | the token found is the longest lexeme of the grammar at that place, of the only kind possible; a parse error of one byte exactly if there is none; the end exactly at NUL |
| Lexers.Lexer.Scan | src/json.hpp:7779-8559 | `scan` skips white space and byte-order marks, ends, and leaves kind and cursor as specified, reading only below `m_limit` and refilling at most once |
| Lexers.Lexer.FillLineBuffer | src/json.hpp:8589-8631 | the refill keeps the unread bytes and the places of cursor and marker, and makes five bytes available |
| Lexers.Lexer.ScanString | src/json.hpp:8138-8240 | the string states find the closing quote, or go back to the marker |
| Lexers.Lexer.ScanNumber | src/json.hpp:7989-8056 | the number states, with fraction, exponent and going back to the marker |
| Lexers.Lexer.ScanWord | src/json.hpp:8086-8112 | the states of the literals |
| Strings.EscapedLength | src/json.hpp:6192-6222 | `extra_space` is exactly the space that escaping needs |
| Strings.EscapeString | src/json.hpp:6240-6345 | the buffer is written inside its bounds, to its end, and holds the concatenation of the bytes' escapes |
| Strings.WriteEscaped | src/json.hpp:6254-6340 | one turn of the loop writes the escape of one byte and leaves the backslashes behind it |
| Strings.GetString | src/json.hpp:8698-8801 | the loop reads no further than the closing quote and yields the value that `Unicode.StringTokenValue` characterises |
| Unicode.StringTokenValue | src/json.hpp:8698-8801 | any mixture of plain bytes, short escapes and `\uXXXX` escapes is a string token; its value is what these stand for by the tables of section 7 of RFC 7159 and section 3 of RFC 3629, and there is none exactly if a high surrogate lacks its low one |
| Unicode.StringHasItems | src/json.hpp:8138-8240 | every string token is such a mixture |
| Strings.QuotedRoundTrip | src/json.hpp:6240-6345 | any byte string, printed and read back, is itself |
| Unicode.Utf8MeetsTable | src/json.hpp:7653-7715 | the bytes of `to_unicode` for a scalar value are the one octet sequence in the table of section 3 of RFC 3629 |
| Unicode.EncodeIsUtf8 | src/json.hpp:7653-7715 | the same for lists of scalar values |
| Unicode.EscapesAreDecoded | src/json.hpp:8759-8789 | any list of scalar values, spelled with four-digit escapes and surrogate pairs, is a string token whose value is its UTF-8 text by that table |
| Unicode.DecodeOfEncode | src/json.hpp:7653-7715 | the encoding of section 3 of RFC 3629 can be decoded |
| Unicode.EncodingIsUnique | src/json.hpp:7653-7715 | different lists have different encodings |
| Numbers.GetNumber | src/json.hpp:8884-8967 | the 64-bit loop of `get_number`, which goes on behind a point and stops at an exponent, computes the value of the literal |
| Numbers.IntegersOnly | src/json.hpp:8916-8928 | a number of the grammar with a fraction or an exponent is never read as an integer |
| Numbers.LiteralExact | src/json.hpp:8884-8967 | a literal that fits has its exact value and the right integer type |
| Numbers.NoneMisreadUpTo19 | src/json.hpp:8884-8967 | no literal of `n` digits is read as an integer that it does not denote, if and only if `n` is at most 19; for both signs |
| Numbers.OverflowMissed | src/json.hpp:8931-8948 | a literal that does not fit and is read as another integer |
| Numbers.PrintedRoundTrip | src/json.hpp:6464-6474 | a printed integer is read back as an equal value |
| Parsers.ParsesYield | src/json.hpp:9036-9227 | the tokens of every derivation are parsed, to the value of the derivation, whatever follows |
| Parsers.ParsedTree | src/json.hpp:9036-9227 | whatever is parsed has a derivation with these tokens and this value |
| Texts.LexedIsSpelled | src/json.hpp:7779-8559 | tokens that the scanner finds stand in the text as lexemes with only gaps between them |
| Texts.SpelledIsLexed | src/json.hpp:7779-8559 | any interleaving of lexemes with gaps, in which numbers are followed by punctuation, is scanned to just these tokens |
| Texts.AcceptsTheGrammar | src/json.hpp:9019-9227 | `parse` accepts exactly the texts of the grammar over bytes, up to the end or a NUL, and returns the value of the derivation, the last of equal names counting |
| Parsers.Parser.ParseInternal | src/json.hpp:9036-9227 | the method on the lexer's state returns what the descent on tokens returns, and stops behind the value |
| Parsers.Parser.ParseObject | src/json.hpp:9042-9121 | the do-while loop over members, with its checks for commas, colons and the closing brace |
| Parsers.Parser.ParseArray | src/json.hpp:9123-9176 | the do-while loop over elements |
| Parsers.Parser.ParseDocument | src/json.hpp:9019-9033 | `parse` never scans behind the end of the input or a parse error |
| Parsers.ParseJson | src/json.hpp:9019-9033 | a whole text, from the constructor on |
| Printers.DumpLexed | src/json.hpp:6364-6502 | scanning a printed value gives the tokens of its derivation, in any surroundings that do not prolong a number |
| Printers.TreeMeaning | src/json.hpp:9036-9227 | that derivation has the printed value, up to signedness |
| Printers.ParseOfDump | src/json.hpp:6364-6502 | parsing any layout of a value, also with white space behind it, gives it back |
| Printers.DumpRoundTrip | src/json.hpp:2200-2223 | the same for the public functions and every indent; the value read compares equal |
| Printers.DumpInjective | src/json.hpp:2200-2223 | values with the same text are equal |
| Layouts.CompactIsLexemes | src/json.hpp:6364-6502 | compact text is the lexemes of the derivation with nothing between them |
| Layouts.PrettyIsLines | src/json.hpp:6364-6502 | pretty text has a line for each bracket and each element, indented by the step for each level in 32 bits |
| Layouts.DumpLayout | src/json.hpp:2200-2223 | the same for the public function and every indent |
| Protocols.RequestLength | src/protocol.cpp:27-32 | the exact length of a request |
| Protocols.RequestsFitUpTo163 | src/protocol.cpp:27-57 | all requests about ids of length `n` fit 1024 bytes if and only if `n` is at most 163 |
| Protocols.RequestIsOneLine | src/protocol.cpp:27-32 | one newline, at the end, and no control character or NUL before it |
| Protocols.RequestRoundTrip | src/protocol.cpp:71-101 | read from a buffer with any remainder behind the terminator, a request has the type and the id it was made from |
| Protocols.ResponseRoundTrip | src/protocol.cpp:59-66 | the same for responses and their error messages |
| Protocols.RequestsLiterally | src/protocol.cpp:15-57 | the five requests letter by letter around the id |
| Protocols.ResponsesLiterally | src/protocol.cpp:20-66 | the two kinds of response letter by letter around the message |
| Protocols.AnyObjectIsRead | src/protocol.cpp:71-101 | any JSON object in any layout is taken for what its type and its id say |
| Protocols.NoObjectIsRead | src/protocol.cpp:71-101 | what is no object ends the server, except for null |
| Protocols.AnyObjectIsResponse | src/protocol.cpp:111-125 | any JSON object is a success if and only if its status is `ok` |
| Protocols.WireIsRead | src/server.cpp:68-222 | each message of the server is read by the other side as it was meant |
| Brokers.ClientIDRoundTrip | src/server.cpp:113-179 | a client's entry determines its descriptor |
| Brokers.HandleKeepsConsistent | src/server.cpp:38-166 | every request keeps the accounting: registered, pending and left-over descriptors are open, distinct and, with the listener, all there are |
| Brokers.AlwaysConsistent | src/server.cpp:38-225 | so does every run, whatever the peers send |
| Brokers.AllEffectsAreProper | src/server.cpp:38-225 | over every run, every descriptor is open when it is written to, handed to a child or closed, and acceptances and closings account for the descriptors open at the end |
| Brokers.RegistrationStays | src/server.cpp:28-104 | over every run, an id keeps its descriptor, and this stays open, until someone unregisters the id |
| Brokers.RegistrationIsAnswered | src/server.cpp:60-83 | a registration is accepted if and only if the server then holds the id for that connection; otherwise it is told that the id is taken |
| Brokers.UnregistrationIsAnswered | src/server.cpp:85-104 | unregistering always succeeds, closes that control connection and keeps all other ids |
| Brokers.ConnectIsAnswered | src/server.cpp:106-134 | an unknown id is rejected without a trace; for a known one a single message goes to its service and names the client, who is pending |
| Brokers.StatusIsAnswered | src/server.cpp:175-225 | a report on an unknown client is rejected without a trace; a pending one is handed over and forgotten |
| Brokers.OthersAreAnswered | src/server.cpp:49-166 | unexpected requests are rejected, failing reads are not answered, no table changes |
| Brokers.ChildTellsClient | src/server.cpp:181-206 | the child tells the client once, success exactly if the report says so, and ends with both descriptors closed |
| Brokers.Server.RegisterServer | src/server.cpp:28-36 | registers an id unless it is taken |
| Brokers.Server.UpdateConnectionStatus | src/server.cpp:175-225 | hands both descriptors to a child and forgets the client, or rejects an unknown one |
| Brokers.Server.HandleRequest | src/server.cpp:38-166 | the method changes the tables and acts on descriptors exactly as specified, in order |
| Services.ServiceProxy.Start | src/service_proxy.cpp:26-65 | registers, and enters the loop exactly if the reply is a success |
| Services.EntersIffHeld | src/service_proxy.cpp:35-50 | with the server's own reply, the service enters its loop if and only if the server holds its id for that connection |
| Services.ServiceProxy.Loop | src/service_proxy.cpp:52-63 | forks the workers that the messages call for, and ends only by an exception |
| Services.ServiceProxy.HandleEvent | src/service_proxy.cpp:52-126 | one message makes at most one worker |
| Services.ShutdownUnregisters | src/service_proxy.cpp:128-149 | after any traffic, the server reads the message of `shutdown` as unregistering just this service: it forgets the id, closes that control connection and changes nothing else |
| Services.ServiceAnswers | src/service_proxy.cpp:52-126 | each forwarded request that the service can act on makes exactly one worker, whose report the server reads as the status of just that client; a failing read is passed over |
| Rendezvous.HistoryFollowsEffects | src/server.cpp:106-225 | the tokens, replies and pairs recorded are exactly what the server's messages and forks amount to |
| Rendezvous.StepKeepsInv | src/server.cpp:38-225 | every step of server, services, workers and network keeps the invariant |
| Rendezvous.RunKeepsInv | src/server.cpp:38-225 | it holds in every run |
| Rendezvous.TokenDiscipline | src/server.cpp:106-225 | at most one forwarded request, worker or report per pending client, none for other numbers, and the number still denotes the client meant |
| Rendezvous.RepliedAndPairedOnce | src/server.cpp:175-225 | no client gets two status replies or is connected twice |
| Rendezvous.PairedWithServiceAskedFor | src/server.cpp:106-156 | whoever a client is connected with was registered under the id asked for when the server took the request |
| Rendezvous.DescriptorsAccountedFor | src/server.cpp:38-225 | the server's accounting in every run of the whole system |
| Rendezvous.LostClientStaysPending | src/server.cpp:106-156 | a pending client without a token stays so in every step |
| Rendezvous.CanAnswer | src/server.cpp:175-225 | from every state of the invariant with a token, steps of service, worker and server lead to the reply of its client |
| Rendezvous.AnswerableIffToken | src/server.cpp:106-225 | in every run, a pending client has a continuation in which it gets its reply if and only if it has a token |
| Relays.ExchangeData | src/network_util.cpp:119-147 | the loop delivers every chunk it reads up to the first failing send, not its terminator, and closes both descriptors |
| Relays.DoKeepsInv | src/network_util.cpp:119-172 | under every interleaving, what a thread has read is what it has sent and the chunk in hand |
| Relays.RunKeepsInv | src/network_util.cpp:119-172 | in every run |
| Relays.Conservation | src/network_util.cpp:119-172 | each byte that entered a chain was delivered or is on its way, in order |
| Relays.EndToEnd | src/client_proxy.cpp:46-55 | through any number of relays, what the far end has read is a prefix of what the near end has written |
| Relays.EndedRelayIsQuiet | src/network_util.cpp:119-172 | once one thread has ended, the other completes at most the one call it is in: it delivers nothing but the chunk of a send in progress, and reads at most one chunk more |
| Relays.ExchangeIsRun | src/network_util.cpp:119-147 | what `ExchangeData` does is a run of the steps of its thread, each enabled, with the same bytes read and sent |

## Left out

- Floating point: values carry integers only; a literal that the code would read as a floating-point number is the error `FloatLiteral`.
- Two's complement: casts of unsigned integers above 2^63 - 1 and the negation of 2^63 are taken to wrap, as they do on the usual platforms.
- Stream input: the lexer is modelled over contiguous storage; reading from a stream refills differently.
- Sizes: lengths and positions are unbounded, where the code has 64-bit ones.
- Parser callbacks, iterators, templates, allocators, hashing, move and swap.
- Patches.Patch, Flattening.Unflatten: documents are values that are replaced along a path, where the code writes through references; aliasing is not captured.
- Error texts: exceptions are told apart by their type only, and the parser's errors carry no position.
- Sockets: `accept` yields any descriptor that is not open; `fork` and the network are steps; one `recv` yields one whole message, since the code does not reassemble; sends are complete or fail; a relay opens no descriptor after it has closed one.
- Rendezvous.StepKeepsInv: services are honest, so that a report comes only from a worker of the service asked; `Services.ServiceAnswers` shows that the service's code is. Requests are well-formed; malformed ones end the server process.
- Brokers.Server.HandleRequest: a request arrives as read by `Protocols.ReadRequest`; console output is not modelled.
- Services.ServiceProxy.Loop: the loop is endless; it is followed over finite sequences of messages. The signal handler and the worker's process are not modelled, its relaying is (`Relays`).
- `Response.isError`, which no program calls, `toString`, which only prints or forwards `dump`, and the makers of single request types, which only fill in the type.
- `simple_server.cpp` (listening and accepting), `client.cpp` (configuration), `createConnection`, the programs' entry points, headers and tests.

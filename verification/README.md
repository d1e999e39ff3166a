# Verified model of RahuNAS

RahuNAS is a captive-portal gateway: a daemon lets clients of a virtual server through a firewall
while their session lasts. This project models its four hardest parts and proves properties of them.

- **The configuration language.** A 255-byte refill reader (`Reader`) feeds a character machine
  (`Lexer`, `Scanner`), which feeds a parser with an explicit stack of states and a dotted path that
  it pushes to and truncates (`Pda`, `Parser`, on the growable string of `LString` and `Text`). The
  result is a list of paths and values with a linear lookup, and a tree built from it (`Tree`,
  `TreeIndex`). `Grammar` holds the recursive grammar, its flattening, and what the parser emits;
  `Stray` says which documents make the parser write outside its path buffer; `Lexemes` and `Loading`
  tie text, tokens, trees and values together.
- **The session engine.** A session lives in the member list, the kernel IP set, the two-way service
  class set, the bandwidth slots and the database table. `Sessions` gives every task as a function on
  these stores, `SessionInv` the agreement of the stores, `SessionRuns`, `SessionSafety`,
  `SessionSlots`, `SessionPoll`, `SessionCleanup` and `SessionRestart` what starts, stops, whole runs,
  slot counts, polling passes, a clean-up and a restart do to it, and `SessionRequests` what single
  requests do, on addresses, clocks and members. `Tasks`, `Members`, `Bandwidth` and
  `Engine` are the running form: loops and assignments on fields, proved against those functions;
  `Replay` joins the replays of the virtual servers.
- **Configuration reload and interfaces.** `VServers` is the list of virtual servers with its flag
  loop, `Reloads` says exactly when a reload ends with one server per file, and `ReloadRuns` when
  members and table are in step behind it, over whole runs; `ReloadOutcomes` says what becomes of each
  server by the names and clients compared; `SessionAbstract` derives the sets of
  sessions it speaks of from the session stores. `Interfaces` and `InterfaceCounts` are the reference
  counts and the mask of reserved ifb numbers, and `InterfaceReloads` joins them to runs of reloads.
  `Counting` has the counting of finite sets.
- **Codecs.** `XmlRpc` and `XmlRpcMessages` (escapes and messages of both sides), `Fields` (the
  parameter split at bars), `Cidr` (packed network keys) and `CidrTable` (the table of prefix sizes).

Lists, maps and words that the program reassigns are fields of classes; in-place arrays stay arrays.
Strings are sequences of bytes; clocks, random numbers, results of scripts, blocks that `read`
returns and the order of database rows are parameters, so every statement is for all of them.
`dafny verify dfyconfig.toml` checks everything.

## Where the code does not do what it says

Each of these is modelled as written. The lemmas named say exactly when the intended property holds,
or exactly what happens instead; a failing input is given by name where there is one.

- `lcfg_string_cat_uint` counts a digit too few for every number that starts with a ten (10, 100 to
  109, and so on), so the eleventh item of a list overwrites the dot in front of it: exact in
  `Text.CatUintExact`, `Pda.PathDiscipline` and `Grammar.EmittedIsFlat`, with `Loading.EleventhKey`.
- On an empty path the same push writes to the unsigned index 2^32 - 1, outside the buffer. Which
  documents come there is exact in `Strays.StrayExact`; a list of strings does from 101 items on
  (`Loading.StringListBound`).
- A bad hex digit is accepted: any two characters behind a hex escape are (`Lexer.BadHexRead`,
  `Lexer.BadHexAccepted`). There is no escape for a backslash other than hex (`Lexemes.Spell`).
- A document with a string and a map of the same name loads, but its tree cannot be built: exact in
  `TreeIndex.LoadedTree`, with `TreeIndex.StringAndMapClash`.
- `iptoid` gives 0xFFFFFFFF for an address out of the range, the test for a negative index never
  fires, and the session is started: exact in `SessionSafety.StartSessionExact` and
  `SessionRequests.StrangerStarts`, with `SessionInv.OutOfRangeIndex`.
- A stop deletes the rows of every session with the same session id and user: exact in
  `SessionRuns.StopExact`, with `SessionRuns.StopDeletesTwin`.
- The slot flag of a session that ended stays set, and when every slot has been used the search for
  one never ends: exact in `Slots.SearchEnds` and `Slots.RunDrawable`, with `Slots.SlotsExhausted`.
- A 0 handed out by the saturated counter, and a slot whose removal script fails, are counted for
  good: the steps that do it are exact in `SessionSlots.LeakExact`, the count in `SessionSlots.RunCounts`.
- A new member is sorted in while its index is still 0. When it goes to the front of the list is exact
  in `MemberLists.NewestFirst`, when the list stays sorted in `MemberLists.PutSorted`.
- A reload loses a file when two files come to one virtual server or when an unclaimed virtual server
  still has the id of a file: exact in `Reloads.ReloadExact`.
- A file that changes the id of a virtual server leaves its session rows behind: exact in
  `ReloadRuns.ReloadInStep` and `ReloadRuns.RenumberExact`, with `ReloadRuns.IdChangeOrphans`.
- Interfaces are looked up by prefix, and the mask overflows with the 32nd: exact in
  `InterfaceCounts.AppendExact` and `InterfaceCounts.RemoveExact`, with `InterfaceCounts.MaskOverrun`.
- The request decoder of the server doubles or swallows characters behind an ampersand, because one
  branch lacks an `else`: exact in `XmlRpc.ServerRoundTrip`.
- Asking a parameter for a field it does not have reads past its end: exact in `Fields.BeyondExact`.

## Model

| member | source | states |
|---|---|---|
| Text.CountIsDigits | lcfg/lcfg_static.c:328-338 | The digit count of the source is the number of decimal digits, minus one exactly when some i / 10^k is ten |
| Text.DigitsDecimal | lcfg/lcfg_static.c:343-350 | The digits of i are decimal text: digits only, no leading zero, and what they read as, character by character, is i |
| Text.DecimalUnique | lcfg/lcfg_static.c:343-350 | There is one such text for each number |
| Text.CatUintExact | lcfg/lcfg_static.c:328-353 | Appending i leaves the earlier bytes and adds decimal text that reads as i if and only if no i / 10^k is ten |
| Text.PopPush | lcfg/lcfg_static.c:962-982 | A pop undoes a push of a component without a dot |
| Text.PopPushInt | lcfg/lcfg_static.c:968-982 | A pop undoes an index push without a leading ten; with one it takes a component too many |
| Text.PopMonotone | lcfg/lcfg_static.c:974-982 | On a prefix of a path a pop leaves a prefix of what it leaves of the path |
| Text.PushIntLength | lcfg/lcfg_static.c:968-973 | An index push adds a dot and the digits, one byte fewer on a leading ten |
| LStrings.LString.Grow | lcfg/lcfg_static.c:289-298 | The content stays, and the capacity exceeds the asked size |
| LStrings.LString.CatChar | lcfg/lcfg_static.c:406-413 | One byte is appended, the rest kept, capacity still above the size |
| LStrings.LString.CatStr | lcfg/lcfg_static.c:393-404 | All bytes of the text are appended in order |
| LStrings.LString.CatUInt | lcfg/lcfg_static.c:328-353 | The new content is the old one with decimal text of the number behind it, or from its last byte on when the number has a leading ten; a write outside the buffer is reported exactly for a leading ten on an empty string |
| LStrings.LString.WriteDigits | lcfg/lcfg_static.c:341-350 | The backward loop writes exactly the digits (decimal text, by Text.DigitsDecimal), ending where the reserved bytes end, and reports a digit that falls in front of the buffer |
| LStrings.LString.RFindChar | lcfg/lcfg_static.c:370-383 | The index of the last occurrence, or -1 |
| LStrings.LString.Trunc | lcfg/lcfg_static.c:385-391 | The content is cut to at most so many bytes |
| LStrings.LString.Copy | lcfg/lcfg_static.c:314-326 | The bytes handed out are the content |
| LStrings.LString.PopLast | lcfg/lcfg_static.c:974-982 | The truncation at the last dot is Pop, and empties a path without one |
| Readers.DeliveredIsFile | lcfg/lcfg_static.c:513-577 | The buffered reader hands out the whole file if and only if no block follows a short one |
| Readers.ChunksDelivered | lcfg/lcfg_static.c:513-577 | A file of any length, 0 and multiples of 255 included, read in full blocks is handed out entirely |
| Readers.Reader.Fill | lcfg/lcfg_static.c:513-530 | A refill keeps the remaining text and takes one block |
| Readers.Reader.CharEof | lcfg/lcfg_static.c:532-551 | The end is reported exactly when no byte remains, and nothing is lost |
| Readers.Reader.CharPeek | lcfg/lcfg_static.c:566-577 | The next byte of the remaining text, which stays, or failure exactly at its end |
| Readers.Reader.CharRead | lcfg/lcfg_static.c:553-564 | The next byte of the remaining text, which is taken off, or failure exactly at its end |
| Lexer.ScanStep | lcfg/lcfg_static.c:580-795 | A step either consumes a byte or finishes a token, so scanning is the iteration of steps |
| Lexer.ScannedIdent | lcfg/lcfg_static.c:625-691 | Every identifier is a letter and then letters, digits, minus and underscore |
| Lexer.TokenizedIdents | lcfg/lcfg_static.c:625-691 | The same for every identifier among the tokens of any text |
| Lexer.BadHexAccepted | lcfg/lcfg_static.c:734-753 | Two texts with bad hex digits, and the byte each is read as |
| Lexer.BadHexRead | lcfg/lcfg_static.c:726-753 | Any two characters behind a hex escape are read as one byte, so no text is refused for them |
| Scanners.Scanner.SwitchStart | lcfg/lcfg_static.c:596-642 | The switch over the start state does what the step function does |
| Scanners.Scanner.SwitchEsc | lcfg/lcfg_static.c:707-733 | The switch over the escape state does what the step function does |
| Scanners.Scanner.Switch | lcfg/lcfg_static.c:594-756 | One round of the switch is one step of the machine, on state, token text and reader alike |
| Scanners.Scanner.TokenRead | lcfg/lcfg_static.c:580-795 | The loop prepares exactly the token that the machine scans, or fails exactly when it fails |
| Scanners.Scanner.NextToken | lcfg/lcfg_static.c:797-821 | The prepared token comes out and the one after it is prepared; an unreadable next token fails this call |
| Grammar.PathShrinksV | lcfg/lcfg_static.c:1000-1103 | Reading a value leaves a prefix of the path as it was before the push |
| Grammar.PathExactV | lcfg/lcfg_static.c:968-1104 | Every pop undoes its push exactly when no eleventh item came; the first one costs a component more |
| Grammar.ShortfallV | lcfg/lcfg_static.c:1029-1104 | Under a path that fell behind the true one, the emitted keys are never longer in total than those of the flattening, and shorter unless no string follows an eleventh item |
| Grammar.EmittedIsFlat | lcfg/lcfg_static.c:941-1118 | The emitted list is the left-to-right flattening of the tree if and only if no string follows an eleventh item in its statement |
| Grammar.ShortIsClean | lcfg/lcfg_static.c:968-973 | Trees whose lists have at most ten items are among them |
| Pda.PathDiscipline | lcfg/lcfg_static.c:953-1104 | For every token sequence, the path is the dot-join of the open components in every state of the run if and only if no list takes an eleventh item |
| Pda.OneComponentPerState | lcfg/lcfg_static.c:983-1104 | In every reachable valid state the number of open components is the stack index |
| Pda.PathStep | lcfg/lcfg_static.c:1000-1103 | One step keeps the path the join of the components exactly when it is not the eleventh item of a list |
| Pda.RunStmtValue | lcfg/lcfg_static.c:1030-1060 | The tokens of a value behind an equals sign take the machine back to the statement state, with the values emitted |
| Pda.RunItems | lcfg/lcfg_static.c:1061-1095 | The tokens of list items keep the list open and count every item |
| Pda.RunDoc | lcfg/lcfg_static.c:1012-1029 | The tokens of statements leave the stack as it was, with the values emitted |
| Pda.SplitItems | lcfg/lcfg_static.c:1061-1095 | An accepted run inside a list reads grammatical items and a closing bracket first |
| Pda.SplitStmt | lcfg/lcfg_static.c:1012-1060 | An accepted run that starts with a key reads a grammatical statement first |
| Pda.AcceptsIsGrammar | lcfg/lcfg_static.c:941-1118 | The automaton accepts a token sequence if and only if it is the token sequence of a tree of the grammar |
| Pda.AcceptedOutput | lcfg/lcfg_static.c:941-1118 | On the tokens of a tree it adds exactly the pairs that the tree emits |
| Strays.DottedIndex | lcfg/lcfg_static.c:968-973 | An index push leaves a dot-join of components: one more, or as many as before when a leading ten is glued to the last |
| Strays.LeftDottedV | lcfg/lcfg_static.c:968-1104 | Reading a value leaves the path a dot-join of as many components as the count over the document says |
| Strays.EmittedDottedD | lcfg/lcfg_static.c:968-1104 | Every emitted key is a dot-join of one or more components, whatever the list indexes are |
| Strays.StrayValue | lcfg/lcfg_static.c:1030-1095 | On the tokens of a value an index push leaves the buffer if and only if, in the value, an index with a leading ten meets no component, or one behind it does |
| Strays.StrayExact | lcfg/lcfg_static.c:328-353 | The parser writes outside its path buffer on a document if and only if some list item with a leading-ten index meets an empty path, counting components over the document |
| Strays.ShortNoStrayD | lcfg/lcfg_static.c:328-353 | Documents whose lists have at most ten items never do |
| Lexemes.ScanGap | lcfg/lcfg_static.c:596-679 | Any gap of blanks and closed comments is skipped |
| Lexemes.ScanToken | lcfg/lcfg_static.c:594-756 | A written token, whatever the spelling of its string, is scanned as that token |
| Lexemes.TokenizeWritten | lcfg/lcfg_static.c:580-821 | Any text written as gaps and tokens is scanned back to exactly those tokens |
| Lexemes.Spell | lcfg/lcfg_static.c:692-753 | Every byte string has a spelling, with quotes escaped and backslashes in hex |
| Lexemes.NameExact | lcfg/lcfg_static.c:625-691 | A text in front of an equals sign is read as a name if and only if it is a letter and then letters, digits, minus and underscore |
| Lexemes.StartExact | lcfg/lcfg_static.c:596-642 | What each single character is read as: four are skipped, six are tokens, all others are unreadable |
| Lexemes.CommentExact | lcfg/lcfg_static.c:643-680 | Two slashes begin a line comment, a slash and a star a block comment, and nothing else does |
| Lexemes.EscapeExact | lcfg/lcfg_static.c:707-733 | The five one-character escapes and the bytes they stand for; all others make the text unreadable |
| Lexemes.HexRead | lcfg/lcfg_static.c:726-753 | Two hex digits of either case are read as the byte they stand for |
| Lexemes.EscapeIsStrtoul | lcfg/lcfg_static.c:734-753 | Any two characters behind a hex escape are read as strtoul reads them in base 16, cut to a byte |
| Loading.LoadOfDoc | lcfg/lcfg_static.c:941-1137 | The tokens of a tree load as what the tree emits unless an index push leaves the buffer, and as its flattening if and only if the tree is clean and none does |
| Loading.LoadIsFlattening | lcfg/lcfg_static.c:941-1137 | A text loads if and only if its tokens are those of a tree none of whose index pushes leaves the buffer; the values are then as LoadOfDoc says |
| Loading.WriteThenLoad | lcfg/lcfg_static.c:580-1118 | Any text that writes a tree, with any gaps and spellings, loads as the tree does: as its flattening exactly for clean trees whose pushes stay in the buffer |
| Loading.PrintThenLoad | lcfg/lcfg_static.c:580-1118 | Printing a tree with lists of at most ten items and loading the text gives its flattening |
| Loading.StringListBound | lcfg/lcfg_static.c:328-353 | A list of strings under a key loads as its flattening if and only if there are at most ten, string k then under the key, a dot and k in decimal; it makes the parser leave its buffer if and only if there are more than 100 |
| Loading.EleventhKey | lcfg/lcfg_static.c:328-353 | The key under which the eleventh item comes out |
| Parsers.Machine.PushState | lcfg/lcfg_static.c:953-960 | The stack grows by one state, doubled when full, and the index stays below its size |
| Parsers.Machine.PopBoth | lcfg/lcfg_static.c:961-982 | State and path lose their last element together |
| Parsers.Machine.UseDoc | lcfg/lcfg_static.c:1012-1029 | The statement case is the step of the automaton |
| Parsers.Machine.UseValue | lcfg/lcfg_static.c:1030-1060 | The value case is the step of the automaton |
| Parsers.Machine.AddItem | lcfg/lcfg_static.c:1063-1070 | A string in a list is added under the path with its index, which is popped again, and the item is counted |
| Parsers.Machine.UseList | lcfg/lcfg_static.c:1061-1095 | The list case is the step of the automaton, unless its index push leaves the buffer, which it reports exactly then |
| Parsers.Machine.Use | lcfg/lcfg_static.c:1000-1103 | One token moves stack, path and values as one step of the automaton does, unless its index push leaves the buffer |
| Parsers.Round | lcfg/lcfg_static.c:1000-1103 | One round of the loop keeps what the tokens ahead come to, or ends with it: refused, or out of the buffer |
| Parsers.Parse | lcfg/lcfg_static.c:941-1118 | For any blocks read, parsing ends as the delivered text loads: with its values, refused, or out of the buffer |
| Trees.InsertAtPath | lcfg/lcfg_static.c:1344-1381 | An insertion changes what is found at one path as a map update would, first value kept, and no other path |
| Trees.InsertFits | lcfg/lcfg_static.c:1344-1381 | The insertion succeeds exactly when no string stands on the way |
| Trees.InsertKeepsDistinct | lcfg/lcfg_static.c:1344-1381 | Sibling keys stay distinct |
| Trees.BuiltDistinct | lcfg/lcfg_static.c:1408-1417 | In every built tree, sibling keys are distinct |
| Trees.TreeIsLinear | lcfg/lcfg_static.c:1155-1170 | The tree is built and answers every lookup as the linear first-match search if and only if no key is a proper dotted prefix of another |
| TreeIndex.FindSibling | lcfg/lcfg_static.c:1348-1354 | The search finds the first sibling with the key, or none |
| TreeIndex.InsertList | lcfg/lcfg_static.c:1344-1381 | The heap form of the insertion builds the tree of the function, and fails exactly when it does |
| TreeIndex.InsertBelow | lcfg/lcfg_static.c:1368-1380 | The same below a sibling that has the key |
| TreeIndex.Components | lcfg/lcfg_static.c:1383-1406 | Splitting a dotted key gives the components it was joined from |
| TreeIndex.SplitJoin | lcfg/lcfg_static.c:1383-1406 | Joining components and splitting the key gives the components back |
| TreeIndex.Get | lcfg/lcfg_static.c:1155-1171 | The linear search returns the first value of any key, or failure when there is none |
| TreeIndex.ValueIsLinear | lcfg/lcfg_static.c:1155-1171 | On dotted keys it is the search by components |
| TreeIndex.NewTree | lcfg/lcfg_static.c:1408-1417 | The tree of all values in order, or failure exactly when the function fails, for all keys with a component |
| TreeIndex.FlatDottedD | lcfg/lcfg_static.c:1383-1406 | Every key of a flattened document can be split and joined back |
| TreeIndex.KeyPrefix | lcfg/lcfg_static.c:1383-1406 | On dotted keys the components of one come before those of another exactly when its text with a dot begins the other |
| TreeIndex.LoadedTree | lcfg/lcfg_static.c:1344-1417 | Every text that loads has keys with components, and its tree is built and answers every key as the linear search does if and only if no key with a dot behind it begins another |
| TreeIndex.StringAndMapClash | lcfg/lcfg_static.c:1344-1381 | A loadable document whose values have no tree |
| Tasks.Position | src/rh-task.c:39-45 | The place in front of the first task of no higher priority |
| Tasks.RegisterDescending | src/rh-task.c:15-46 | Registering a task keeps the list in strictly descending priority and adds just that task |
| Tasks.TaskList.Add | src/rh-task.c:15-46 | The loop registers a task once, at its place |
| Tasks.TaskList.RegisterAll | src/rh-task.c:48-67 | Registration gives the task list of the configuration |
| Tasks.PipelineRegistered | src/rh-task.c:48-67 | The registered list is the pipeline, with or without classes and shaping |
| SessionInv.AddrIndex | src/rh-utils.c:162-196 | Index to address and back is the identity inside the range |
| SessionInv.IndexAddr | src/rh-utils.c:162-196 | Address to index and back is the identity inside the range |
| SessionInv.OutOfRangeIndex | src/rh-utils.c:162-181 | Every address out of the range gets the one index 0xFFFFFFFF, which is no client |
| SessionInv.StartEffect | src/rh-task.c:135-150 | The pipeline on a new session adds one member, kernel entry and row, the class pair if granted and the slot if drawn, and nothing else |
| SessionRuns.StartKeeps | src/rh-task.c:135-150 | A start of an address in the range under a new session id keeps all stores in agreement |
| SessionRuns.StopEffect | src/rh-task.c:152-167 | The pipeline backwards takes the session out of every store and touches no other |
| SessionRuns.StopKeeps | src/rh-task.c:152-167 | A stop keeps all stores in agreement |
| SessionRuns.StopExact | src/rh-task-dbset.c:396-429 | Table and members still agree after a stop if and only if no other member of the virtual server has its session id and user |
| SessionRuns.StopDeletesTwin | src/rh-task-dbset.c:396-429 | Otherwise the row of the other member is gone |
| SessionRuns.OneRowDeleted | src/rh-task-dbset.c:396-429 | Under unique session ids the delete removes one row, that of the member |
| SessionSafety.StartSessionExact | src/rh-xmlrpc-server.c:75-116 | A start request keeps the stores in agreement if and only if its address is in the range |
| SessionSafety.StartThenStop | src/rh-task.c:135-167 | Stopping what was just started restores members, kernel set, class set and table |
| SessionSafety.RunKeeps | src/rh-xmlrpc-server.c:75-221 | In every run of starts, greetings of members included, stops, traffic, polling passes and crashes all stores agree |
| SessionRequests.ClientIndex | src/rh-utils.c:162-196 | The index of a client is its distance from the first address of its virtual server |
| SessionRequests.StopSessionExact | src/rh-xmlrpc-server.c:191-221 | A stop request takes the client at its address out of every store if and only if it is online under the MAC of the request; every other request leaves all stores as they were |
| SessionRequests.StartSessionEffect | src/rh-xmlrpc-server.c:75-116 | A start request enters one member, kernel entry and row with the fields of the request and the time of the start, or, for a client that is online or an unknown virtual server, changes nothing |
| SessionRequests.StrangerStarts | src/rh-utils.c:162-181 | A start from an address out of the range enters a member under the index 0xFFFFFFFF unless one is there, and the kernel set stays as it was |
| SessionRequests.FreeAtMembers | src/rh-task-serviceclass.c:46-53 | While the stores agree, the slots of a class that rows hold are those that live members hold |
| SessionRequests.ClassOfFirst | src/rh-serviceclass.c:16-36 | The class looked up is the first that has the name or the id -1 |
| SessionRequests.ClassStartExact | src/rh-task-serviceclass.c:106-205 | With separated class networks a start gets the class it asks for if and only if one of the 29 draws is not zero and held by no live session of that class name: the first such draw, mapped to the start of the network plus the slot |
| SessionRequests.NoClassStart | src/rh-task-serviceclass.c:106-205 | Without the class task, a class name or a class of that name a start gets none, and the class set stays |
| SessionRequests.SlotStartExact | src/rh-task-bandwidth.c:267-320 | Which starts get a bandwidth slot, which one, and what becomes of flags and count |
| SessionSafety.EmptyInv | src/rh-task-ipset.c:64-80 | The empty stores agree |
| SessionSafety.StartFinds | src/rh-task.c:135-150 | On a start, every task that looks the member up finds it |
| SessionSafety.StopFinds | src/rh-task.c:152-167 | On a stop, every task that looks the member up finds it |
| SessionSafety.SetSymmetric | src/rh-task-serviceclass.c:135-174 | In every reachable state the class set is symmetric and maps no address to itself |
| SessionSafety.ClassSlotsDistinct | src/rh-task-serviceclass.c:18-71 | Two live sessions of a class have different slots and mapped addresses, strictly between network and broadcast address |
| SessionSafety.PickSlotExact | src/rh-task-serviceclass.c:40-64 | The retry loop comes to the first of its draws that is not zero and that no row with the name of the class holds, and to 0 if and only if there is none |
| SessionSafety.ClassGrantedExact | src/rh-task-serviceclass.c:106-205 | With separated class networks a new session gets its class if and only if one of the 29 draws is such a slot: the first one, with the address that far behind the network, in both directions |
| SessionRestart.ClassRestored | src/rh-task-serviceclass.c:135-174 | Replaying a row grants the same class, slot and mapped address again |
| SessionRestart.RestoreStep | src/rh-task-dbset.c:205-254 | One replayed row rebuilds one more session |
| SessionRestart.RestartRecovers | src/rh-task-dbset.c:205-254 | From every reachable state, a restart that replays the rows in any order recovers ids, users, session ids, MACs, times and class mappings, and the stores agree |
| SessionPoll.PassIsFilter | src/rahunasd.c:82-149 | A polling pass takes exactly the due members among those visited out of every store, and all others keep their data |
| SessionPoll.PassExact | src/rahunasd.c:116-147 | A visited member is gone behind a pass if and only if it has a kernel entry and either that is older than the idle limit or a session end is set and past; nobody else is gone, and those gone have left every store |
| SessionCleanup.EachStopped | src/rh-task-ipset.c:16-49 | Stopping the members of a virtual server one by one takes exactly them out of every store |
| SessionCleanup.CleanupClears | src/rh-task-ipset.c:83-95 | Cleaning a virtual server up leaves nothing of it in members, kernel set or table, the others as they were, and all stores in agreement |
| SessionSlots.LeakExact | src/rh-task-bandwidth.c:267-352 | No slot is leaked behind a step if and only if none was before, or the step is a crash, and the step itself hands out no 0 of a saturated counter and fails no removal |
| SessionSlots.CountExact | src/rh-task-bandwidth.c:267-352 | While the 16-bit counter has room, the slot count is the number of live slots if and only if none leaked |
| SessionSlots.RunCounts | src/rh-task-bandwidth.c:267-352 | Over every run the slot count is the number of live slots if and only if no step leaked one since the process started |
| SessionSlots.RunFlags | src/rh-task-bandwidth.c:58-68 | Over every run the flags are the 0 and the slots granted since the process started |
| SessionAbstract.StoresInStep | src/rh-task-dbset.c:205-254 | While the stores agree, the rows of a virtual server are the indexes of its members |
| SessionAbstract.LoginAbstracts | src/rh-xmlrpc-server.c:75-116 | A start that is no greeting adds one index to its virtual server and one pair to the table, and nothing else |
| SessionAbstract.LogoutAbstracts | src/rh-task.c:152-167 | A stop removes one index and one pair, and nothing else |
| SessionAbstract.CleanupAbstracts | src/rh-task-ipset.c:16-49 | Stopping every member of a virtual server is the set operation Cleanup on its indexes and the table, and leaves the other virtual servers alone |
| SessionAbstract.SetupAbstracts | src/rh-task-dbset.c:205-254 | Replaying the rows of a virtual server without members is the set operation Setup, and leaves the table and the other virtual servers alone |
| MemberLists.NewestFirst | src/rh-task-memset.c:33-43 | A new member goes to the front of the list if and only if the list is empty or its first index is at most 2^31 |
| MemberLists.PutSorted | src/rh-task-memset.c:138-146 | A sorted list stays sorted if and only if it is empty, or the new index is below the first one, or, where that is above 2^31, above the last one |
| MemberLists.FindIsMember | src/rh-task-memset.c:16-31 | A lookup in the list is a lookup among the members |
| MemberLists.PutAgrees | src/rh-task-memset.c:122-146 | Entering or overwriting a node is a map update, and ids stay distinct |
| MemberLists.RemoveAgrees | src/rh-task-memset.c:204-254 | Deleting a node is a map removal, and ids stay distinct |
| Slots.DrawInRange | src/rh-task-bandwidth.c:37-45 | Any random number gives a slot of at most 9901, a page of at most 618, inside the flags and below the reserved ids |
| Slots.SetBit | src/rh-task-bandwidth.c:63-67 | Setting a flag sets that bit of its word and no other |
| Slots.FirstFreeGranted | src/rh-task-bandwidth.c:32-55 | A slot found is not flagged; none is found exactly when all draws hit flagged slots |
| Slots.FirstFreeExact | src/rh-task-bandwidth.c:37-54 | The slot found is that of the first draw that hits no flagged slot |
| Slots.SlotTable.GetSlotId | src/rh-task-bandwidth.c:25-56 | 0 when the count is saturated, else the first draw that is not flagged |
| Slots.SlotTable.MarkReserved | src/rh-task-bandwidth.c:58-68 | The slot is flagged, no other flag changes, the count goes up by one in 16 bits |
| Slots.SlotTable.Return | src/rh-task-bandwidth.c:342-348 | The count goes down, the flags stay |
| Slots.CyclesEffect | src/rh-task-bandwidth.c:323-352 | After n visits nobody is online and the count is zero, but slots 1 to n stay flagged |
| Slots.DrawableExact | src/rh-task-bandwidth.c:37-48 | Some random number hits an unflagged slot if and only if a slot from 1 to 9901 is not flagged |
| Slots.SearchEnds | src/rh-task-bandwidth.c:32-55 | The search for a slot can end if and only if the counter is saturated or such a slot is left |
| Slots.RunDrawable | src/rh-task-bandwidth.c:32-68 | In every run from a fresh process, crashes included, a slot can still be drawn if and only if fewer than 9901 different slots have been granted since the process started |
| Slots.SlotsExhausted | src/rh-task-bandwidth.c:32-55 | A reachable state with nobody online in which no slot can be granted, whatever is drawn |
| Engine.AttemptedGranted | src/rh-task-bandwidth.c:298-318 | The slot of the first successful try is one that may be granted |
| Engine.AttemptedExact | src/rh-task-bandwidth.c:298-318 | The slot of the first attempt that succeeds among the tries, and none if none of these does |
| Engine.Daemon.FindNode | src/rh-task-memset.c:16-31 | The loop finds the node of a session exactly when it is a member |
| Engine.Daemon.InsertionPoint | src/rh-task-memset.c:33-43 | The loop finds the place in front of the first node that does not compare less |
| Engine.Daemon.AddMember | src/rh-task-memset.c:122-201 | The member task is MemsetStart on the stores, and stamps a request without a start time |
| Engine.Daemon.AddKernel | src/rh-task-ipset.c:98-107 | The kernel set task is IpsetStart on the stores |
| Engine.Daemon.GetClassSlot | src/rh-task-serviceclass.c:40-64 | The retry loop is PickSlot with 29 tries, which PickSlotExact says on draws and rows |
| Engine.Daemon.AddBoth | src/rh-task-serviceclass.c:146-157 | Both directions are added, or the set is left unchanged |
| Engine.Daemon.AddClass | src/rh-task-serviceclass.c:106-205 | The service class task is ServiceClassStart on the stores |
| Engine.Daemon.TrySlots | src/rh-task-bandwidth.c:298-314 | At most three tries; the slot of the first that succeeds |
| Engine.Daemon.AddSlot | src/rh-task-bandwidth.c:267-320 | The bandwidth task is BandwidthStart on the stores |
| Engine.Daemon.AddRow | src/rh-task-dbset.c:345-393 | The database task is DbsetStart on the stores |
| Engine.Daemon.Start | src/rh-task.c:135-150 | The walk over the task list is StartSess on the stores |
| Engine.Daemon.DropMember | src/rh-task-memset.c:204-254 | The member task of a stop is MemsetStop; the node and no other leaves the list |
| Engine.Daemon.DropClass | src/rh-task-serviceclass.c:208-276 | The service class task of a stop is ServiceClassStop on the stores |
| Engine.Daemon.DropSlot | src/rh-task-bandwidth.c:323-352 | The bandwidth task of a stop is BandwidthStop on the stores |
| Engine.Daemon.DropRows | src/rh-task-dbset.c:396-429 | The database task of a stop is DbsetStop on the stores |
| Engine.Daemon.Stop | src/rh-task.c:152-167 | The backward walk is StopSess on the stores; exactly one node leaves the list |
| Engine.Daemon.StartRequest | src/rh-xmlrpc-server.c:75-116 | A start request is StartSession on the stores |
| Engine.Daemon.StopRequest | src/rh-xmlrpc-server.c:191-221 | A stop request is StopSession on the stores, which StopSessionExact says on addresses and MACs |
| Engine.Daemon.ExpiredCheck | src/rahunasd.c:82-149 | Deleting while walking visits every member of the list once and sweeps them by their clocks and limits as PassExact says; the list left is the old one without the members that are gone, in its order |
| Engine.Daemon.ClearServer | src/rh-task-ipset.c:16-49 | The loop stops every member, empties the list, and clears the virtual server from all stores |
| Engine.Daemon.RestoreSet | src/rh-task-dbset.c:205-254 | The loop replays exactly the rows of its virtual server, in order |
| Engine.Daemon.Recover | src/rh-task-dbset.c:306-334 | The start of the daemon over the table of a crashed one recovers every session of it |
| Replay.TableKept | src/rh-task-dbset.c:345-393 | Replaying rows leaves the table as it is |
| VServers.MainServer.Exists | src/rh-server.c:12-30 | The first server with the id or the name |
| VServers.MainServer.RegisterFile | src/rh-server.c:71-183 | A file marks the server it comes to for reload or reset, or appends a new one, by the comparisons that LoadMarks writes out |
| VServers.MainServer.LoadFiles | src/rh-config.c:352-380 | All readable files are registered in order |
| VServers.MainServer.BringUp | src/rh-server.c:251-300 | The flag loop ends, with RESET over INIT and INIT, RELOAD over DONE, in the server of Bring |
| VServers.MainServer.WalkAll | src/rh-server.c:225-241 | Every server is brought up once, in order |
| VServers.MainServer.Unregister | src/rh-server.c:185-203 | The first server with the id leaves the list |
| VServers.SweepStep | src/rh-server.c:303-323 | One removal, even when it hits another server of the same id, leaves what will be kept unchanged |
| VServers.MainServer.UnusedCleanup | src/rh-server.c:303-323 | The restarting walk ends and keeps exactly the servers that are not VS_NONE and stand in front of no VS_NONE of their id; the rows of all VS_NONE go |
| VServers.MainServer.ReloadFiles | src/rahunasd.c:177-225 | A reload is loading, bringing up and removing, in this order |
| Reloads.Loaded | src/rh-server.c:71-183 | After loading, every live server carries the last file that came to it, and new servers follow in file order |
| Reloads.WalkAt | src/rh-server.c:251-300 | VS_DONE ends as VS_NONE and every other flag as VS_DONE with the file's configuration |
| Reloads.FileKept | src/rh-server.c:71-323 | A file has a server after the reload exactly when no later file took it and no VS_NONE of its id stands behind it |
| Reloads.ReloadExact | src/rh-server.c:71-323 | A reload ends with exactly one server per file, each VS_DONE with that file, if and only if no server is claimed twice and no unclaimed server has the id of a file |
| ReloadRuns.IdsStayClean | src/rh-server.c:12-30 | Files that give no live server another id meet all conditions of a reload |
| ReloadRuns.WalkSessions | src/rh-server.c:251-300 | Through the walk reloaded servers keep their sessions, reset ones lose them, new ones restore theirs |
| ReloadRuns.ReloadInStep | src/rahunasd.c:177-225 | A reload with one server per file leaves members and table in step if and only if every file that changes an id meets its condition on the rows left under the new id; exactly the rows of removed and reset servers are gone |
| ReloadRuns.RenumberExact | src/rh-server.c:266-280 | If the new ids are held by no server and have no rows, that is: no server with sessions keeps them under a new id |
| ReloadRuns.ReloadSettles | src/rahunasd.c:177-225 | Files that change no id keep members and table in step, with exactly the rows of removed and reset servers gone |
| ReloadRuns.ReloadSessions | src/rh-server.c:147-155 | The server of each file has the sessions it had if its name and clients stay, else those of the rows of its id that are left |
| ReloadRuns.IdChangeOrphans | src/rh-server.c:266-280 | A reload that changes the id leaves the sessions under the new id and their rows under the old |
| ReloadRuns.RunSettled | src/rahunasd.c:177-225 | Over every run of logins, logouts and reloads that meet the exact conditions, members and table stay in step, and every reload ends with one server per file |
| ReloadOutcomes.LoadMarks | src/rh-server.c:122-155 | A live server is marked for reload if and only if the last file that comes to it, by id or name, agrees with it in the first 32 characters of the name and the first 18 of the clients, for reset if not, and not at all if none comes |
| ReloadOutcomes.LiveOutcome | src/rahunasd.c:177-225 | Behind a reload a server whose name and clients agree so far has kept its sessions in memory and table; one whose do not has lost all its rows, and starts with the sessions of the rows of a new id or with none |
| ReloadOutcomes.KeepsExact | src/rh-server.c:147-153 | The sessions of a server that has some outlive a reload if and only if name and clients agree so far |
| ReloadOutcomes.RemovedOutcome | src/rh-server.c:303-323 | A server that no file comes to is gone behind a reload, with its rows |
| ReloadOutcomes.NewOutcome | src/rh-server.c:259-265 | The server of a file that comes to no live one starts with the sessions of the rows of its id |
| Interfaces.InterfaceTable.Reserve | src/rh-config.c:580-596 | The first number whose mask bits are free, and the mask with these bits |
| Interfaces.InterfaceTable.AppendInterface | src/rh-config.c:474-519 | The first interface hit counts up, or a new one is appended |
| Interfaces.InterfaceTable.RemoveInterface | src/rh-config.c:521-554 | Every interface hit counts down up to the first that reaches zero, which is freed |
| Interfaces.InterfaceTable.GetInterface | src/rh-config.c:557-578 | The first interface hit |
| InterfaceCounts.ReserveFree | src/rh-config.c:580-596 | While a number below 31 is free, the first such number is reserved, alone |
| InterfaceCounts.AppendExact | src/rh-config.c:474-519 | Counts, numbers and mask still agree if and only if the first interface hit is the one named, or none is hit and fewer than 31 are in use |
| InterfaceCounts.MaskOverrun | src/rh-config.c:580-605 | The 32nd interface reserves bits that nobody holds |
| InterfaceCounts.RemoveExact | src/rh-config.c:521-554 | They still agree if and only if the named interface is hit first and no other is counted with it |
| InterfaceCounts.UpExact | src/rh-config.c:474-519 | The same of a server that goes up, said on the names: its interface is the first whose name begins with its own, or none does and fewer than 31 are in use |
| InterfaceCounts.DownExact | src/rh-config.c:521-554 | And of one that goes down: its interface is the first whose name begins with its own, and it was the last server there or no name behind begins so |
| InterfaceCounts.RunKeeps | src/rh-task-bandwidth.c:225-264 | Over every run, with at most 31 names none a prefix of another, each count is the number of servers up on the interface, ifb numbers are distinct, and the mask is exactly those held |
| InterfaceCounts.GetOwn | src/rh-task-bandwidth.c:234-240 | A server that is up gets its own interface |
| InterfaceCounts.EmptyInv | src/rh-config.c:17-18 | With no interface and an empty mask they agree |
| InterfaceReloads.WalkLeads | src/rh-server.c:251-300 | Bringing the servers up moves the interfaces from those of the initialised servers to those of all of them |
| InterfaceReloads.ReloadLeads | src/rahunasd.c:177-225 | A reload with one server per file that keeps the interfaces of reloaded servers moves the interfaces from those of the servers before to those of the servers after, taking down none that is not up |
| InterfaceReloads.RunLeads | src/rahunasd.c:177-225 | The same over whole runs of reloads, logins and logouts |
| InterfaceReloads.RunCounts | src/rh-task-bandwidth.c:225-264 | Over every such run, with at most 31 names none a prefix of another, each count is the number of virtual servers in the list on that interface, ifb numbers are distinct, and the mask is exactly those held |
| XmlRpc.EncodedPlain | xmlrpc/xmlrpc-server.c:373-384 | Encoded text has no angle brackets |
| XmlRpc.ClientRoundTrip | xmlrpc/xmlrpc-client.c:174-217 | The client's decoder undoes the encoder on every string |
| XmlRpc.ClientEntities | xmlrpc/xmlrpc-client.c:182-212 | What the client reads for each escape, and for an ampersand that begins none |
| XmlRpc.ServerDecodesEncoded | xmlrpc/xmlrpc-server.c:313-355 | What the server's decoder makes of encoded text, said on the text itself |
| XmlRpc.ServerEntities | xmlrpc/xmlrpc-server.c:322-347 | What the server reads for each escape: the one of the ampersand as an ampersand and then as if another stood in front of the rest |
| XmlRpc.NeverShifted | xmlrpc/xmlrpc-server.c:322-347 | No text is its own decoding behind extra ampersands |
| XmlRpc.ServerRoundTrip | xmlrpc/xmlrpc-server.c:313-355 | The server's decoder undoes the encoder if and only if the string has no ampersand |
| XmlRpcMessages.RequestExtracted | xmlrpc/xmlrpc-server.c:268-361 | The server finds the method and the coded parameter of any request whose method has no angle bracket |
| XmlRpcMessages.FindFirst | xmlrpc/xmlrpc-server.c:268-309 | A tag is found where it stands first |
| XmlRpcMessages.RequestRoundTrip | xmlrpc/xmlrpc-client.c:224-279 | The server sees the parameter as it was sent if and only if it has no ampersand |
| XmlRpcMessages.ResponseRoundTrip | xmlrpc/xmlrpc-server.c:363-410 | The client gets every reply as it was sent |
| XmlRpcMessages.CallRoundTrip | xmlrpc/xmlrpc-client.c:90-222 | A whole call hands the parameter to the handler and the reply to the caller |
| XmlRpcMessages.EncodeText | xmlrpc/xmlrpc-server.c:373-384 | The encoding loop is the encoder |
| XmlRpcMessages.ClientDecodeText | xmlrpc/xmlrpc-client.c:174-217 | The decoding loop decodes exactly the text up to the next tag |
| XmlRpcMessages.ServerDecodeText | xmlrpc/xmlrpc-server.c:313-355 | The decoding loop decodes exactly the text in front of the end tag, never looking past it |
| Fields.SplitJoin | src/rh-utils.c:44-81 | Joining fields with bars and splitting gives the fields back |
| Fields.JoinSplit | src/rh-utils.c:44-81 | Splitting a text and joining the fields gives the text back |
| Fields.StripExact | src/rh-utils.c:72-76 | Trimming takes all blanks off both ends and nothing else |
| Fields.TrimmedIs | src/rh-utils.c:72-76 | Trimming is the only way to take space, tab, line ends and form feed off both ends |
| Fields.GetSep | src/rh-utils.c:44-81 | The loop returns the trimmed field of that number, missing, or leaves the string, exactly as the split text says |
| Fields.FieldsReturned | src/rh-utils.c:44-81 | All fields come back if and only if the last one is not empty |
| Fields.FieldTrimmed | src/rh-utils.c:70-76 | What comes back for a field is the field without the white space at its ends |
| Fields.BeyondExact | src/rh-utils.c:60-80 | The search leaves the string if and only if the field does not exist and the string does not end in a bar |
| Cidr.PackedCidr | src/ipset/ip_set_hashes.h:288-311 | The prefix length can be read off a packed key |
| Cidr.PackedNetwork | src/ipset/ip_set_hashes.h:288-311 | The masked network can be read off a packed key |
| Cidr.PackInjective | src/ipset/ip_set_hashes.h:288-311 | Packed keys are equal if and only if prefix length and masked network are, and none is 0 |
| Cidr.SamePrefix | src/ipset/ip_set_hashes.h:288-311 | Packed keys are equal if and only if prefix length and as many leading bits are |
| CidrTable.AddSize | src/ipset/ip_set_hashes.h:252-267 | The in-place loop is Add |
| CidrTable.DelSize | src/ipset/ip_set_hashes.h:269-279 | The in-place loop is Del |
| CidrTable.AddIs | src/ipset/ip_set_hashes.h:252-267 | A size goes behind all that are at least as large, and the last entry drops out |
| CidrTable.AddKeeps | src/ipset/ip_set_hashes.h:252-267 | The order stays, and the contents gain the size and lose the smaller of it and the last entry |
| CidrTable.AddStrict | src/ipset/ip_set_hashes.h:252-267 | No size comes twice if and only if it was new or the last of a full table |
| CidrTable.DelKeeps | src/ipset/ip_set_hashes.h:269-279 | The order stays, and the contents lose the size once for a zero; without it only the last entry is cleared |
| CidrTable.AddThenDel | src/ipset/ip_set_hashes.h:252-279 | Deleting undoes adding if and only if the table was not full |
| CidrTable.DelThenAdd | src/ipset/ip_set_hashes.h:252-279 | Adding undoes deleting if and only if the size was there |

## Left out

- Sockets, exec wrappers, signals, logging, the watchdog and the SQL text: input and output without a meaning of their own here; the table is a keyed map, the kernel set a map from address to MAC.
- XmlRpcMessages.CallRoundTrip: covers the bodies of the messages; HTTP headers, and how the client cuts a long response into lines, are input and output of sockets and not part of this model.
- Races between the polling thread and the RPC handlers, memory lifetimes, and errors of `read`.
- What a program does after a write outside its buffer: the model ends there with that outcome. Texts of 4 GiB and more, on which sizes wrap.
- Token positions, error texts, greeting and reply texts, class descriptions.
- `lcfgx_tree_delete` and the dump function; the meaning of the keys of a configuration.
- TreeIndex.InsertBelow: walks the siblings by recursion, where the source loops, so that every sibling passed learns of its new nodes.
- The reload of service classes (`src/rh-serviceclass.c`): the machine of the virtual servers without sessions.
- A class network without hosts, on which the source divides by zero, and a class list that changes while sessions hold a class.
- The bandwidth slot stored in a row: it is never read back, and a restored session draws a new one.
- Shift counts from 32 on in `ifb_interface_reserve` are taken as on x86; interface names of 32 bytes and more, and the init flag of an interface with its start and stop scripts.
- InterfaceReloads.ReloadLeads: takes `dev_internal` of a reloaded virtual server as unchanged; the source looks a changed one up without having appended it.
- Engine.Daemon.TrySlots: a stream of random numbers without a free slot ends the try, where the source would go on drawing.
- Shapes that the HASH_ and BITMAP_ macros build around the prefix table: the functions they call are not part of this model.

# pyBurlyBot, modelled in Dafny

pyBurlyBot is an IRC bot. Around its chat commands sit a dozen small engines, each with an
invariant that the rest of the bot leans on. This project models those engines and proves what
they are for. One file is one component:

- `Utf8`, `TextSplit`, `MessageBudget`, `Assembly`, `Throttle`: the path of an outbound line. Text is cut at
  byte limits without breaking a character, messages are assembled inside the budget of one IRC
  line, and lines go out no faster than three a second.
- `ModuleLoader`, `EventIndex`, `Waiters`: the dispatcher. Plugins are loaded after what they
  require, with cycles refused; an index of their handlers answers for a scan of all of them;
  waiting generators get the events they asked for.
- `Roster`, `Membership`, `Wire`, `RelayServer`, `Effects`, `Agreement`, `Mistakes`, `Tracker`: who is in
  which channel. The bot keeps users and channels as linked objects, the relay server its own tables, and
  between them are lines of text that are cut, quoted and parsed. The server's lines mean just what
  its tables hold; the two agree throughout a run exactly if the bot takes the lines as they are
  meant, and there are runs for each way in which it does not.
- `WebSocket`: the frames of RFC 6455 (sections 5.2 to 5.5), out and in. What is received does not
  depend on how the bytes were chunked.
- `Intervals`, `Availability`: half-open time intervals, and from them who is free when.
- `WebhookPort`: the owner of the webhook's port, whose stop and start steps run on one chain.
- `NameSegments`: a comma-separated list of names in which names may contain commas.
- `DateSearch`: the next date or time that matches "31st", "2/29", "friday" or "10:30".
- `DbWorker`, `DbManager`: a database worker with its queue, and the map from networks to workers.
- `Evaluator`: the calculator on integers, and how large its numbers can get.

Where the source changes state, the model has a class or an array and a method with the same
steps, proved equal to a function of the old state; the theorems are lemmas about that function.
Time is a number that is passed in, threads and callbacks are events in an arbitrary order, and
what cannot be seen (imports, binds, SQLite, the directory of users) is an arbitrary function.

The functions that specify the methods are themselves pinned by lemmas that do not use them: what each
command of the relay changes and who is told (`Effects`), what each mode of a message assembly makes
(`Assembly`), and in the other files the lemmas whose names end in `Exactly`, `Is` or `Bytes`.

Some promises turned out to have exceptions. They are stated exactly, and where the statement does not
name the input itself, another one shows it:

- `TextSplit.SegmentsRejoinExactly`: the segments give back the text if and only if no character is
  wider than a segment; `TextSplit.SegmentsSkipWide` is a character that is lost.
- `MessageBudget.EvenSplitFitsExactly`: the even split fits if and only if its separators fit by
  themselves; `MessageBudget.EvenSplitOverruns` has an input for every length of the prefix.
- `MessageBudget.CheckSendMsgExactly`: `checkSendMsg` is right except for the empty message behind
  a head that is too long itself, for which `MessageBudget.CheckSendMsgWrong` shows it wrong.
- `Agreement.RunAgreesExactly`: the tracker agrees with the server throughout a run, whatever the run,
  if and only if the bot takes the lines of each command as they are meant. If the lines are legible,
  that is, whole as far as it matters and without quoting characters, `Agreement.LegibleRunExactly`
  says which commands are then mistaken: the bot's own rename, of which the tracker is not told;
  another spelling of a channel; and lists with nicks that begin with a prefix character, which the
  relay accepts and the tracker strips. `Mistakes.PrefixedNickIsMistaken` and
  `Mistakes.PrefixedNickIsMistakenLater` are two such runs. Lines that are not legible are mistaken in
  `Mistakes.LongNameIsMissed`, where the server's cut at 510 bytes takes the command off;
  in `Mistakes.QuotedNickIsMistaken` and `Mistakes.QuotedRenameTakesNick`, where the bot drops
  chr(16); and in `Mistakes.RefusedQuitIsMissed`, where the server raises instead of sending.
- `Agreement.RanksExactly`: operators and voices are members of their channels at every point of
  whatever the bot reads, if and only if every mode line gives its lasting ranks to members.
- `WebhookPort.ListenGets`: a listen gets its address if and only if its own bind succeeds and so do
  those on that address that are queued before it; `WebhookPort.OwnAttemptDecides`: it depends on its
  own bind alone if and only if none is queued. `WebhookPort.ListenDroppedWithEarlierOne` is a listen
  that is dropped.
- `DateSearch.NthDay`: the search gives up, contrary to the comment in the code, but only in the
  last month a datetime can hold. `DateSearch.MonthDay`: 29 February is refused once it is gone,
  though there is another one.
- `DbManager.DBManager.AddServer`: all stays exact if and only if the call does not raise, or raises
  for a label that is new because no worker can be made. A label that moves stays mapped to a worker
  that no longer counts it and may have been stopped, as in `DbManager.MoveThatFails`; and a worker
  that cannot be started is kept for its file, and given to the next label on it, as in
  `DbManager.StartThatFails`.
- `Evaluator.PowerCheckExactly`: for which bases and exponents the check before a power is right;
  `Evaluator.PowerRefusedThoughItFits` is a power for which it is not.

## Model

| member | source | states |
|---|---|---|
| Utf8.DecodeEncode | util/helpers.py:273-295 | Decoding the UTF-8 encoding of any text (RFC 3629 section 3) gives the text back. |
| Utf8.EncodeDecode | util/helpers.py:284-295 | The strict decoder accepts nothing but encodings: overlong forms, surrogates and stray continuation bytes are refused. |
| Utf8.EncodeSplit | util/helpers.py:273-295 | Cutting a text at a character cuts its encoding at the byte width of what is before it, on both sides. |
| Utf8.CharBytes | util/helpers.py:273-295 | The bytes of every character are those of the table in section 3 of RFC 3629: one to four by its size, the first with the high bits behind its length mark, the others with six bits each. |
| Utf8.FitPrefixLongest | util/helpers.py:283-295 | The prefix chosen for a number of bytes fits, and every longer prefix does not. |
| Utf8.DecodeIgnoreCut | util/client.py:156-158 | Cutting an encoding at any byte and decoding with "ignore" leaves exactly the longest prefix of whole characters that fits. |
| TextSplit.SplitEncoded | util/helpers.py:268-307 | The byte loop terminates, every slice it decodes is well formed, and its segments are those of the recursive split by characters. |
| TextSplit.Backtrack | util/helpers.py:288-294 | The inner loop stops at the last character start at or before the limit, and skips only continuation bytes. |
| TextSplit.StepOver | util/helpers.py:296-305 | The skip ends at the next character start or the end of the text, over continuation bytes only. |
| TextSplit.SegmentsFit | util/helpers.py:265-307 | At most n segments; each has at most the given number of bytes and reports its exact size. |
| TextSplit.SegmentsTile | util/helpers.py:282-306 | Each segment is maximal, the next character would not fit; the segments follow each other with only too wide characters left out; and they reach the end when fewer than n are returned. |
| TextSplit.SegmentsRejoin | util/helpers.py:282-307 | If no character is wider than the length, nothing is skipped: the segments are nonempty and concatenate to a prefix of the text, to all of it when fewer than n are returned or n is no less than the number of characters. |
| TextSplit.SegmentsRejoinExactly | util/helpers.py:282-307 | With n at least the number of characters, the segments concatenate to the text if and only if no character is wider than the length. |
| TextSplit.SegmentsSkipWide | util/helpers.py:296-306 | A character wider than the length is lost: alone, it leaves an empty segment. |
| TextSplit.FirstSegment | util/helpers.py:271-295 | The first segment is the longest prefix that fits, its size is exact, and it is the whole text exactly if the text fits. |
| MessageBudget.AssembleMsg | util/client.py:1357-1461 | The assembly that overwrites the list in place gives the line that the rows about `Assemble` below describe, in all three modes, also for a template that is too long and for a missing argument. |
| MessageBudget.DropWholeInPlace | util/client.py:1399-1405 | The in-place loop blanks exactly the entries that do not fit in what is left. |
| MessageBudget.KeepWhole | util/client.py:1407-1414 | The loop with a separator joins exactly the kept entries. |
| MessageBudget.FirstComeInPlace | util/client.py:1415-1434 | The in-place loop leaves in each slot what first-come-first-served gives it. |
| MessageBudget.EvenInPlace | util/client.py:1448-1457 | The in-place loop leaves in each slot its equal share and the separator. |
| MessageBudget.AssembledFits | util/client.py:1357-1461 | With a prefix of at most 508 bytes and each replacement used at most once, the line has at most 508 bytes minus the prefix in every mode, given that the separators fit in the even split. |
| MessageBudget.EvenSplitFitsExactly | util/client.py:1439-1459 | In the even split with a separator the line fits if and only if the separators alone fit in what is available. |
| MessageBudget.EvenSplitOverruns | util/client.py:1439-1459 | For every length of a known prefix from 1 to 508, a list and a separator for which the assembled line is longer than the budget. |
| MessageBudget.FirstComeExactly | util/client.py:1415-1438 | First come, first served: each slot gets the longest prefix of its text that fits in what the slots before it leave over. |
| MessageBudget.FirstComeJoined | util/client.py:1419-1436 | With a separator each text is followed by it, up to the first slot after which there is no room for it and two bytes more; the slots behind are empty. |
| MessageBudget.EvenExactly | util/client.py:1448-1457 | In the even split each text gets the same share, is uncut if it fits it, and all but the last are followed by the separator. |
| MessageBudget.DropWholeExactly | util/client.py:1394-1406 | An entry stays uncut exactly if it fits in what the entries kept before it leave over, so a later, shorter one may still be included. |
| MessageBudget.KeptWhole | util/client.py:1407-1414 | The joined entries are uncut entries of the list in order, and all of them when everything fits. |
| Assembly.EvenSplitMakes | util/client.py:1439-1461 | An even split is the template filled with every entry cut to the same share, each to its longest beginning that fits; the share is the greatest with which as many of them, and the separators, fit what is available, and 0 if the separators alone do not. |
| Assembly.EvenSplitUncut | util/client.py:1439-1461 | When every entry fits an equal part of what the separators leave, the line is the template with the entries whole. |
| Assembly.ShareIsGreatest | util/client.py:1441-1445 | The share times the number of entries fits in what the separators leave, and one byte more each does not; it is 0 if the separators do not fit. |
| Assembly.FirstComeMakes | util/client.py:1415-1438 | First come, first served is the template filled with cut entries, each the longest beginning that fits in what the bytes of those before it leave. |
| Assembly.FirstComeJoins | util/client.py:1415-1436 | With a separator it is the template filled with the join of the entries served: each cut to the room at hand, one more served only if the separator and two bytes more fit, and the last served is the list's last or leaves less. |
| Assembly.DropWholeMakes | util/client.py:1399-1406 | Dropping whole entries is the template filled with each entry that fits in what the bytes of those kept before it leave, and nothing for the others. |
| Assembly.DropWholeJoins | util/client.py:1407-1414 | With a separator it is the template filled with the join of the entries kept. |
| Assembly.KeptGreedily | util/client.py:1407-1413 | An entry is kept if and only if its join with those kept before it fits. |
| Assembly.OverlongIsCut | util/client.py:1391-1393 | A template that is too long by itself goes out with its slots empty, cut to as many bytes as it has characters less those that are missing. |
| Assembly.RaisesExactly | util/client.py:1382-1461 | Assembling raises if and only if a field has no argument, or an empty list is to be split evenly. |
| Assembly.FormatAt | util/client.py:1382-1461 | In a formatted line every literal and every replacement stands between what the template has before and after it. |
| Assembly.SeparatedAt | util/client.py:1408-1414 | A join is any beginning of the list joined, the separator, and the rest joined. |
| MessageBudget.CheckSendMsgExactly | util/client.py:1292-1349 | `checkSendMsg` says whether `_buildmsg` leaves the message unchanged, if and only if at least zero bytes are available or the message is not empty. |
| MessageBudget.CheckSendMsgWrong | util/client.py:1292-1349 | Behind every head that is too long, the empty message goes out unchanged while `checkSendMsg` says that it does not. |
| MessageBudget.BuildSplit | util/client.py:1322-1335 | The loop over the lines of a split message puts the head in front of each segment, line by line, until four are out. |
| MessageBudget.SplitLinesFit | util/client.py:1322-1335 | A split message makes at most four segments, each fits what is available, and nothing is lost if it makes fewer and no character is wider than a line. |
| Assembly.PlainMessageIs | util/client.py:1292-1349 | A message that is not split is its head and the longest beginning of the text that fits in 508 bytes with the prefix and the head; the check asks whether all of it fits. |
| Assembly.SplitMessageIs | util/client.py:1322-1335 | Line by line: the messages of one more line are its segments behind the head, as many as the lines before it leave of four. |
| MessageBudget.BuiltMessagesFit | util/client.py:1322-1335 | With its head, each of the at most four messages has at most 508 bytes minus the prefix, if the head alone has. |
| Throttle.Client.SendLine | util/client.py:153-181 | A submitted line changes the fields, the queue, the callback and the wire as the step function says. |
| Throttle.Client.DelayedSend | util/client.py:183-194 | So does the delayed call. |
| Throttle.RunKeepsInv | util/client.py:116-194 | The invariant of the throttle over every run with non-decreasing time: sent lines are ordered and spaced, the burst counter covers the last second, and a callback is pending exactly while lines are queued. |
| Throttle.AtMostThreePerSecond | util/client.py:116-194 | In every run at most three lines go out in any half-open window of one second. |
| Throttle.BurstOfThree | util/client.py:161-181 | The bound is reached: after two idle seconds three lines go out at once and a fourth waits a second. |
| Throttle.AtOnceExactly | util/client.py:159-181 | A line goes out at once if and only if none is queued and more than a second has passed since the last one or fewer than three are counted; then it is counted, from one again after two seconds; otherwise it is queued last and a callback is pending. |
| Throttle.DelayedExactly | util/client.py:183-194 | The delayed call sends the line that was queued first, and comes again a second later exactly if there is another. |
| Throttle.NothingLost | util/client.py:153-194 | Lines sent followed by lines queued are the lines submitted, cut to 510 bytes, in order. |
| Throttle.PendingExactlyWhileQueued | util/client.py:160-194 | A callback is pending exactly when the queue is not empty. |
| Throttle.QueueDrains | util/client.py:183-194 | Left alone, the queue empties in order, one line a second. |
| Throttle.CutFits | util/client.py:156-158 | A line that goes out has at most 510 bytes and is the longest whole-character prefix of what was submitted. |
| ModuleLoader.Registry.ImportPlugin | util/moduleloader.py:24-45 | The cached import answers as an uncached one would, and a failure has an error recorded. |
| ModuleLoader.Registry.Activate | util/moduleloader.py:54-56 | An active module keeps its place; a new one comes last; other servers are untouched; and the name joins those ever activated. |
| ModuleLoader.Registry.RecordActivationError | util/moduleloader.py:58-59 | The first reason recorded for a name is kept. |
| ModuleLoader.Registry.ClearServer | util/moduleloader.py:50-52 | One server's modules and errors are emptied, the others' kept. |
| ModuleLoader.Loader.Reload | util/dispatcher.py:36-48 | A reload terminates; afterwards exactly the loadable modules are active, each after all it requires, and what the modules configured first come to before what only later ones do; the others that are allowed have an error recorded, which is true; and other servers are untouched. |
| ModuleLoader.Loader.LoadModule | util/dispatcher.py:85-140 | It succeeds exactly for loadable modules, on whatever chain of modules it is called, and records a true error otherwise; what becomes active is the loadable modules that it reaches away from that chain, itself last, right behind what its requirements in turn come to. |
| ModuleLoader.Loader.LoadRequirements | util/dispatcher.py:70-83 | It reports exactly the requirements that are not allowed and those that are allowed and not loadable. |
| ModuleLoader.Loader.ErrorsAreOfUnloadable | util/dispatcher.py:85-140 | Every error recorded after a load is true (not allowed, a circle, which requirements are not allowed or failed, or the stage that failed), and its module is not loadable. |
| ModuleLoader.ReachesOn | util/dispatcher.py:70-107 | A module reaches, along requirements of allowed modules that import, itself and what its requirements reach without coming through it again; so skipping the modules that are being loaded misses nothing. |
| ModuleLoader.NextTurn | util/dispatcher.py:46-48 | Modules are tried in turn: what the first ones come to is active before what only the later ones do. |
| ModuleLoader.LoadableIsFixpoint | util/dispatcher.py:85-140 | A module is loadable if and only if it is allowed, imports, passes its stages and all its requirements are loadable. |
| ModuleLoader.LoadableIsLeast | util/dispatcher.py:85-140 | Every set closed under that rule contains the loadable modules. |
| ModuleLoader.NoCycles | util/dispatcher.py:93-98 | No module on a cycle of requirements, or above one, is loadable. |
| ModuleLoader.ChainDescends | util/dispatcher.py:70-140 | Along a chain of requirements the positions in the order of activation strictly descend. |
| ModuleLoader.DerivationForAll | util/dispatcher.py:70-140 | Modules loadable one by one are loadable in one order of activation. |
| EventIndex.Dispatcher.BuildEventMap | util/dispatcher.py:172-222 | The index answers each lookup of type and group with the stable sort by priority of what a scan of all mappings finds; the sendmsg flag is set exactly if some sendmsg mapping overrides. |
| EventIndex.Dispatcher.AddMapping | util/dispatcher.py:198-222 | Entering one mapping under all its types and commands keeps the index equal to the scan. |
| EventIndex.Dispatcher.SortAll | util/dispatcher.py:175-179 | Every list in the index is sorted in place, and nothing else happens. |
| EventIndex.Dispatcher.Dispatch | util/dispatcher.py:286-350 | The handlers fired through the index are those that the plain scan selects, in order. |
| EventIndex.Dispatcher.FireGroup | util/dispatcher.py:318-350 | One group's loop fires the handlers that pass, up to the first of priority 0, and says whether there was one. |
| EventIndex.ScanMembers | util/dispatcher.py:198-222 | A mapping is found for a type and a group exactly if it is declared for them. |
| EventIndex.SortPermutes | util/dispatcher.py:175-179 | The sorted list is in order of priority and a permutation. |
| EventIndex.SortStable | util/dispatcher.py:175-179 | It keeps the load order within each priority. |
| EventIndex.OrderIsUnique | util/dispatcher.py:175-179 | Order of priority and, within a priority, a given order leave only one sequence. |
| EventIndex.PassingOfPriority | util/dispatcher.py:326-350 | Choosing who passes and choosing a priority can be done in either order. |
| EventIndex.CandidatesInOrder | util/dispatcher.py:286-350 | The candidates of a group are exactly the mappings that a scan selects and that pass, by priority and then load order, and no other sequence is. |
| EventIndex.CutConcat | util/dispatcher.py:315-350 | The groups go on after one another only as long as none had a handler of priority 0. |
| EventIndex.FiredExactly | util/dispatcher.py:315-350 | What fires is a prefix of the candidates of the three groups; it stops short only at a handler of priority 0, and nothing fires after one. |
| EventIndex.FiresExactly | util/dispatcher.py:315-350 | On the fields of mapping and event: what fires is declared for the type and handles everything, or the command and may be used by this caller, or an expression that the text matches; and every such mapping fires unless one of priority 0 did. |
| EventIndex.ScanExactly | util/dispatcher.py:191-222 | Mapping by mapping in load order, each is in a group once for every declared type that is the type, and for every declared command that is the command, but for case. |
| EventIndex.FlattenAt | util/dispatcher.py:172-174 | The mappings of each module come behind those of the modules activated before it. |
| EventIndex.OverrideFound | util/dispatcher.py:180-189 | Looking through the lists of the index finds an override exactly if a scan does. |
| Waiters.WaitData.Create | util/container.py:35-59 | A waiter is refused exactly if no event is given; otherwise its sets are the lower-cased types, or None. |
| Waiters.KindsExactly | util/container.py:35-59 | A waiter waits for each type it names in lower case, and for None exactly if it names nothing at all; an empty name or collection alone is refused. |
| Waiters.WaitMap.AddWaitData | util/dispatcher.py:425-429 | Adding keeps the map exact: every waiter in the sets of its types and no others, no set empty, and every queue what the run so far gives. |
| Waiters.WaitMap.DelWaitData | util/dispatcher.py:431-441 | So does deleting, also of a waiter that is not there. |
| Waiters.WaitMap.Dispatch | util/dispatcher.py:354-376 | So does dispatching; it reports whether anyone registered was waiting for the type; and a stopped waiter is in no set. |
| Waiters.WaitMap.Put | util/dispatcher.py:363-372 | Each waiter of the type gets the event once, and exactly the stopped ones are marked done and collected. |
| Waiters.ReplayOnwards | util/dispatcher.py:354-441 | Replaying a run in two parts is replaying it whole. |
| Waiters.OnwardsHeard | util/dispatcher.py:354-441 | From any point of a run on, a registered waiter hears the events of its types up to its end, and an unregistered one none. |
| Waiters.WaiterHearsExactly | util/dispatcher.py:354-376 | In every run a waiter's queue is the events of its types after it was added, up to and including its first stop event or up to its deletion, each once and in order; and it is registered exactly until then. |
| Roster.RankedKept | util/state.py:139-249 | Joining, leaving, quitting, renaming and NAMES lists keep ops and voices within the members. |
| Roster.ModesExactly | util/state.py:267-327 | After a mode line a nick has a rank exactly if it had it or was given it, and did not lose it; members stay. |
| Roster.ModesRanked | util/state.py:267-327 | A mode line keeps ops and voices within the members if and only if each rank it gives and does not take again is a member's. |
| Roster.OpenExactly | util/state.py:139-162 | A channel that is opened has nobody in it, one that is closed is gone, and all others have the members, ops and voices they had. |
| Roster.ComeAndGoExactly | util/state.py:148-249 | Who joins is a member and has no rank by that; who parts, and is known, leaves members, ops and voices of that channel; who quits, those of all channels it is in; and nothing else changes. |
| Roster.RenameExactly | util/state.py:212-229 | In each channel that the old nick is in, the new one takes its place among members, ops and voices, and nothing else changes. |
| Roster.NamesExactly | util/state.py:342-357 | After a NAMES list the members are those before and its nicks without prefixes; the ops and voices those before and the nicks whose first character shows it. |
| Roster.StripExactly | util/state.py:349-351 | What is taken off a nick are prefix characters, and what is left begins with none. |
| Membership.Channel.ChangeUser | util/state.py:69-78 | A rename moves the user object, and the op and voice marks, to the new key. |
| Membership.Channel.RemoveUser | util/state.py:80-83 | A nick leaves the users, the ops and the voices. |
| Membership.Channel.ChangeModes | util/state.py:253-327 | Ops and voices after a mode line, added before removed. |
| Membership.Network.UserChannels | util/state.py:126-183 | In every valid network a user is known exactly if in some channel; its own set of channels is the channels that list it; and all of them hold the same object under its nick. |
| Membership.Network.UserJoin | util/state.py:164-183 | Joining adds one pair to the relation of nicks and channels if the channel is tracked, and keeps the network valid. |
| Membership.Network.UserPart | util/state.py:231-249 | Parting removes one pair, forgets a user without channels, and keeps the network valid. |
| Membership.Network.UserQuit | util/state.py:148-155 | Quitting removes the nick from every channel and keeps the network valid. |
| Membership.Network.NukeChannel | util/state.py:139-146 | Dropping a channel removes it and the users that were only there, and nothing else. |
| Membership.Network.JoinChannel | util/state.py:157-159 | The bot joining a channel starts it afresh. |
| Membership.Network.LeaveChannel | util/state.py:161-162 | The bot leaving a channel drops it. |
| Membership.Network.UserRename | util/state.py:212-229 | A rename to an unused nick swaps the nick in every channel, with its ranks, on the same object. |
| Membership.Network.AddUsers | util/state.py:342-357 | A NAMES list adds the nicks without prefixes and the ranks that the prefixes show. |
| Membership.Network.ModeChanged | util/state.py:253-327 | A mode line changes ops and voices of a tracked channel alone. |
| Membership.JoinMutual | util/state.py:164-183 | The two indexes stay inverse when a pair is added. |
| Membership.PartMutual | util/state.py:231-249 | And when one is removed, with the user forgotten exactly if it was the last. |
| Membership.QuitMutual | util/state.py:148-155 | And when a user goes, who is taken from exactly the channels it was in. |
| Membership.CloseMutual | util/state.py:139-146 | And when a channel goes. |
| Membership.RenameMutual | util/state.py:212-229 | And when a user is renamed, in exactly the channels it is in. |
| Roster.NamesInAnyOrder | util/state.py:342-357 | Entering a NAMES list nick by nick, in any order, is entering it at once. |
| Wire.Received | microirc_server.py:399-418 | The bytes that `send_line` puts on the wire are at most 510 and decode to the longest beginning of the line, in whole characters, that fits. |
| Wire.RenderedAs | microirc_server.py:83-214 | The lines that the server writes for each event: from whom, the words, and the last part behind a colon. |
| Wire.QuoteUndone | util/client.py:196-206 | What the bot's low-level quoting does to a text, dequoting undoes, and the quoted text has no CR, LF or NUL. |
| Wire.LegibleHeard | util/client.py:1079-1097 | A line that is legible, cut, dequoted, parsed and handled, comes out as the event that the server meant, for every nick, user name, channel, reason and list; of a PART or QUIT line the reason may be cut. |
| Wire.KindKept | util/client.py:1049-1097 | Wherever a line is cut and whatever is quoted in it, it is not taken for one of another kind. |
| Wire.CommandKept | util/client.py:1085-1088 | The command that is parsed of a text cut behind its prefix is the command that was sent, or a shorter beginning of it. |
| Wire.LongSourceLost | microirc_server.py:404-409 | A line whose prefix fills 510 bytes is lost to the bot. |
| Wire.QuotedNickHeard | util/client.py:1085-1085 | A JOIN line of a nick that begins with chr(16) is heard as one of the nick without it. |
| RelayServer.Server.NickCommand | microirc_server.py:105-138 | NICK with its checks, its rename line to the shared peers and itself, and the registration it may complete, for any folding of names; a client that takes a nick that cannot be sent is disconnected. |
| RelayServer.Server.UserCommand | microirc_server.py:140-149 | USER with fewer than four parameters, or of a registered client, is refused; otherwise it completes the registration of a client with a nick. |
| RelayServer.Server.Register | microirc_server.py:296-313 | A client with nick and user name is registered and welcomed, or disconnected if the welcome cannot be sent. |
| RelayServer.Server.JoinCommand | microirc_server.py:151-173 | JOIN of a list: per channel the table, the JOIN line to every member and the NAMES list to the client, up to a line that cannot be sent. |
| RelayServer.Server.PartCommand | microirc_server.py:175-193 | PART of a list: per channel the PART line, spelt as joined, to the members before it, up to one that cannot be sent. |
| RelayServer.Server.NamesCommand | microirc_server.py:217-232 | NAMES of a list answers a registered client with the members of each channel in turn. |
| RelayServer.Server.NamesOfAllCommand | microirc_server.py:217-232 | NAMES without a parameter answers with the members of all the channels the client is in, each once. |
| RelayServer.Server.ModeCommand | microirc_server.py:201-215 | A mode line of a registered client for a channel is passed on to its members; one that only asks, or whose target is no channel, is not. |
| RelayServer.Server.Tell | microirc_server.py:356-359 | A line is made for each recipient, and raises if it holds CR, LF or NUL and there is one. |
| RelayServer.Server.Pass | microirc_server.py:370-403 | A line of a client's command goes to its recipients; if that raises, the client's thread ends and it is disconnected. |
| RelayServer.Server.DisconnectClient | microirc_server.py:74-83 | A client that goes is removed, and its peers hear it quit if it was registered. |
| RelayServer.Server.Serve | microirc_server.py:85-99 | Every single command changes the clients and their lines as the step function of the theorems says. |
| RelayServer.ListedCommands | microirc_server.py:156-232 | A JOIN, PART or NAMES of a list after any run is the run with its single commands, also when one of them ends the client's thread. |
| RelayServer.ListOrder | microirc_server.py:151-232 | The single commands of a list are one for each channel, in its order. |
| Effects.ConnectExactly | microirc_server.py:54-58 | A new connection has no nick, user name, channels or lines; all others are as before. |
| Effects.NickExactly | microirc_server.py:105-138 | NICK changes nothing if the nick is malformed or, up to case, another's. Otherwise only the client's nick changes; if it is registered, exactly it and those in a channel with it get the rename line, and if not, it is registered and welcomed exactly if it has a user name. |
| Effects.UserExactly | microirc_server.py:140-149 | USER with fewer than four parameters or of a registered client changes nothing. Otherwise only the client's user name does, and it is registered and welcomed exactly if it has a nick. |
| Effects.JoinExactly | microirc_server.py:151-173 | JOIN of a channel by a registered client: it is in the channel, exactly the members, itself among them, get the JOIN line, it gets the list of exactly the members' nicks, and nothing else changes; any other JOIN changes nothing. |
| Effects.PartExactly | microirc_server.py:175-193 | PART of a channel that a registered client is in: it is no longer in it, exactly those who were members, itself among them, get the PART line, and nothing else changes; any other PART changes nothing. |
| Effects.NamesExactly | microirc_server.py:217-232 | NAMES gives a registered client the list of exactly the channel's members and changes nothing else. |
| Effects.ModeExactly | microirc_server.py:201-215 | A mode line with an argument, of a registered client for a channel, goes to exactly the channel's members; nothing else changes. |
| Effects.DisconnectExactly | microirc_server.py:74-83 | A client that goes is gone, exactly those that were in a channel with it hear it quit, if it was registered, and nothing else changes. |
| Effects.AnnounceIs | microirc_server.py:356-403 | A line with CR, LF or NUL ends the client whose command it was: it is gone, and exactly those in a channel with it hear it quit, after the line. |
| RelayServer.StepOrderly | microirc_server.py:74-313 | Every command keeps nicks valid and distinct under folding, channels under their folded names, and unregistered clients in no channel and without lines. |
| RelayServer.RunOrderly | microirc_server.py:74-313 | So in every run the server is orderly. |
| RelayServer.StepMeans | microirc_server.py:74-403 | Every command, with lines that can be sent or not: what the server's tables hold about a client's channels changes by just what the lines say that the command makes for that client. |
| RelayServer.RunMeans | microirc_server.py:74-403 | So in every run a client's nick, and the members of each of its channels, are what the lines made for it mean, read from first to last. |
| Agreement.FollowTakes | util/client.py:463-725 | What each event does to the tracked network is its effect on who is in which channel. |
| Agreement.StepAgrees | microirc_server.py:74-403 | One command, relayed and read by the bot: if the tracker agreed with the server before, it does after, if and only if the command's lines are taken as they are meant. |
| Agreement.RunAgreesExactly | microirc_server.py:74-403 | Over every run, with nothing assumed of it: the tracker agrees with the server after every command if and only if the lines of every command are taken as they are meant. |
| Agreement.TrackerAgrees | util/client.py:463-572 | In every such run, once the bot has read its lines, its membership relation is the server's, restricted to the bot's channels, and it knows its nick. |
| Agreement.LegibleTaken | util/client.py:463-725 | A legible line is taken as it is meant if and only if it is clear: who joins or leaves does so under the bot's spelling, the bot is in no channel when renamed, and a list shows just the nicks it holds. |
| Agreement.LegibleStepAgrees | microirc_server.py:74-313 | A command whose lines are legible keeps the agreement if and only if it is straight, which the nicks, channels and spellings before it decide. |
| Agreement.LegibleRunExactly | microirc_server.py:74-313 | Over every run whose lines to the bot are legible: they agree after every command if and only if every command is straight. |
| Agreement.OwnEntryClear | util/state.py:342-357 | When the bot joins, with legible lines, its tracker is right if and only if it knows the channel by no other spelling and no member's nick begins with a prefix character. |
| Agreement.AskClear | util/state.py:342-357 | When the bot asks for the names of a channel, its tracker stays right if and only if the list, with prefixes stripped, shows no nick that is not a member's, or the bot knows the channel by another spelling. |
| Agreement.UntakenNick | microirc_server.py:115-130 | A nick that collides with nobody's is no other member's in the bot's channels. |
| Agreement.RenameSafe | util/state.py:212-229 | A rename line that is taken as it is meant, to a nick that nobody else has, moves no tracked user to the nick of another, however it was heard. |
| Agreement.StepSafe | util/client.py:698-725 | While they agree and a command's lines are taken as they are meant, every rename read is safe to apply. |
| Agreement.RunSafe | util/client.py:698-725 | So in every run whose lines are taken as they are meant, no rename that the bot reads of a tracked user takes the nick of another. |
| Agreement.FollowRanked | util/state.py:139-327 | One event keeps ops and voices within the members if and only if the lasting ranks of a mode line are members'. |
| Agreement.ModeLineExactly | util/client.py:574-603 | What a mode line of a channel does to each rank in each channel: had or given, and not taken; nothing else changes, and one of the bot itself or that does not parse changes nothing. |
| Agreement.RanksExactly | util/state.py:139-327 | Over whatever the bot reads: ops and voices are within the members at every point if and only if every mode line gives its lasting ranks to members. |
| Mistakes.NewcomerExactly | microirc_server.py:151-173 | Whoever joins the bot's channel after it: they agree until then, and after if and only if the JOIN line is heard as it was sent. |
| Mistakes.LongNameIsMissed | microirc_server.py:404-409 | A run in which they differ for the first time when a client joins whose nick and user name fill the line: it is never tracked. |
| Mistakes.QuotedNickIsMistaken | util/client.py:1085-1085 | A run in which chr(16) and "ann" joins, and "ann" is tracked. |
| Mistakes.QuotedRenameTakesNick | microirc_server.py:338-341 | A run in which a client renames itself to chr(16) and the bot's nick, which the server takes for another nick and the bot for its own: the rename takes a tracked nick. |
| Mistakes.RefusedQuitIsMissed | microirc_server.py:399-403 | A run in which a client quits with a NUL in its reason, the line is refused, and the bot goes on tracking it. |
| Mistakes.PrefixedNickIsMistaken | microirc_server.py:338-341 | A run of eight commands after which they disagree for the first time: "+ann" is in the channel that the bot joins. |
| Mistakes.PrefixedNickIsMistakenLater | microirc_server.py:217-232 | A run in which "+ann" joins after the bot, and they disagree for the first time when the bot asks for the names. |
| Mistakes.OvertakenJoinIsMissed | microirc_server.py:160-173 | If the JOIN line of a client that joins behind the bot overtakes the bot's own, the client is not tracked. |
| Tracker.ApplyEvent | util/client.py:463-725 | One event, passed to the linked objects as the handlers do, changes what they hold as it should, and keeps them valid. |
| Tracker.ReadAll | util/client.py:463-725 | A network that is reset and reads a connection's lines holds what following them gives. |
| Tracker.TrackRun | util/state.py:126-249 | In every run whose lines are taken as they are meant, the objects the bot keeps hold exactly its channels, each with exactly the members the server has in it. |
| WebSocket.XorTwice | util/ws.py:37-39 | Masking a byte twice with the same key byte gives it back. |
| WebSocket.MaskTwice | util/ws.py:37-39 | So for a payload and a key of four bytes. |
| WebSocket.XorBits | util/ws.py:37-39 | Bit by bit, the masked number has a bit set exactly if that bit of the two numbers differs. |
| WebSocket.FrameBytes | util/ws.py:37-51 | The bytes of a client frame (section 5.2 of RFC 6455): the final bit and the opcode, the mask bit and the shortest form of the length, high byte first, the key, and byte i of the payload with each bit changed where byte i mod 4 of the key has it set. |
| WebSocket.UnpackIs | util/ws.py:155-160 | Two or eight bytes are read as one number, high byte first. |
| WebSocket.UnpackPack | util/ws.py:47-50 | A length in two or eight bytes is read back. |
| WebSocket.HeadForms | util/ws.py:154-160 | The head of a frame is read back in each of the three forms of its length, masked or not. |
| WebSocket.UnframeFrame | util/ws.py:42-51 | Taking a client frame apart (section 5.2 of RFC 6455) gives its opcode and payload, for every masking key and every length, and leaves what follows. |
| WebSocket.Client.ReadExact | util/ws.py:133-141 | Exactly the first bytes of the stream, however it is chunked; at its end, none, with nothing lost. |
| WebSocket.FlattenExactly | util/ws.py:133-141 | The stream is the chunks one after the other, up to an empty one. |
| WebSocket.Client.ReadHeader | util/ws.py:154-160 | The head of the next frame of the stream. |
| WebSocket.Client.RecvText | util/ws.py:149-188 | The result, the bytes left and the frames sent are a function of the byte stream, whatever the chunks: one pong per ping with its payload in order, then a close if the server closed, and nothing else. |
| WebSocket.FirstFrame | util/ws.py:154-188 | The first frame of a stream is handled by itself, or refused if it exceeds the cap with what was assembled. |
| WebSocket.FrameHandled | util/ws.py:161-188 | A server frame that fits the cap: a ping (9) is answered and a pong (10) is not, both leaving the message as it was; a close (8) ends it; text (1) or binary (2) begins a message and continuation (0) goes on with one, out of place they are refused, as is any other opcode. |
| WebSocket.CutFrame | util/ws.py:133-160 | A stream that ends anywhere inside a frame that fits gives nothing and sends nothing. |
| WebSocket.ServerFrameBytes | util/ws.py:152-160 | The bytes of a server frame in each form of its length. |
| WebSocket.ReceiveMessage | util/ws.py:149-188 | A stream that encodes one message in any fragments, with pings and pongs between (sections 5.4 and 5.5 of RFC 6455), is received if and only if every frame fits the cap: then as the concatenated data, one pong per ping in order, and exactly the trailing bytes left. |
| Intervals.Merge | pyburlybot_modules/whenapi.py:89-98 | The merged list is sorted, of nonempty intervals with gaps between, and covers the same points. |
| Intervals.CanonicalUnique | pyburlybot_modules/whenapi.py:89-98 | A point set has only one such form. |
| Intervals.MergeIdentifies | pyburlybot_modules/whenapi.py:89-98 | Two lists merge to the same exactly if they cover the same points, so merging is blind to order and repetition, and leaves a merged list alone. |
| Intervals.JoinedKeeps | pyburlybot_modules/whenapi.py:92-97 | One interval that starts no earlier joins the last or follows it, and adds exactly its points. |
| Intervals.Subtract | pyburlybot_modules/whenapi.py:101-119 | With one index over the exclusions that is never reset, the result is the canonical form of the set difference. |
| Intervals.CutStep | pyburlybot_modules/whenapi.py:109-116 | One exclusion takes exactly its points from the interval at hand. |
| Availability.SlotIntervals | pyburlybot_modules/whenapi.py:145-158 | The occurrences of a half-hour slot, clipped: an instant is covered exactly if it is inside the scan and within half an hour of one. |
| Availability.WeeklyIntervals | pyburlybot_modules/whenapi.py:133-158 | For a weekly slot at one offset from UTC: the dates enumerated, a week apart from the day before the scan on, are enough; within the scan the result covers exactly what the slot covers on all the dates there are. |
| Availability.DatesOfScan | pyburlybot_modules/whenapi.py:136-142 | A slot that covers an instant of the scan begins on a date from the day before its first to its last. |
| Availability.FillBuckets | pyburlybot_modules/whenapi.py:206-220 | Each row goes to one of four buckets of its own participant; the buckets hold exactly what the rows say. |
| Availability.FreeTime | pyburlybot_modules/whenapi.py:230-232 | An instant is in the result exactly if it is not disallowed and exceptions, if any cover it, or else base rows, say yes and none says no. |
| Availability.FreeExactly | pyburlybot_modules/whenapi.py:172-232 | Free time, with bounds and half hours written out: from now and the schedule's first instant to the horizon and its last, in no disallowed half hour, and of the participant's exceptions about it, or base rows if there are none, there is one and all say can do. |
| Availability.WeeklyStart | pyburlybot_modules/whenapi.py:145-149 | A weekly slot begins at its minutes of the local day that its date is. |
| Availability.WeekdaysAgree | pyburlybot_modules/whenapi.py:136-137 | The weekday of every date is the same in both calendars of the bot, and 1 January 1970 was a Thursday. |
| Availability.TextLeExactly | pyburlybot_modules/whenapi.py:244-250 | Names come by the first letter in which they differ, a beginning before the whole. |
| Availability.FirstInterval | pyburlybot_modules/whenapi.py:233-235 | The first interval is the first maximal run of free time, and it starts by the cutoff exactly if the participant is free by then. |
| Availability.ReachesHorizon | pyburlybot_modules/whenapi.py:236-242 | A run ends at the horizon exactly if it is free all the way there. |
| Availability.FindAvailability | pyburlybot_modules/whenapi.py:161-251 | Exactly the known, unblocked participants free by the cutoff get a window, one each; it reports their first run and whether that reaches the horizon; windows come by start and then by name. (Whose window each is comes along, which the source drops.) |
| WebhookPort.WebhookListener.Listen | util/webhook.py:149-164 | Listening is the step function's listen, which keeps the port for an unchanged address. |
| WebhookPort.WebhookListener.Release | util/webhook.py:166-169 | A release drops the handler and schedules one claim check. |
| WebhookPort.WebhookListener.StopIfUnclaimed | util/webhook.py:176-180 | A claim check stops the port only if no handler is there. |
| WebhookPort.WebhookListener.CloseCompleted | util/webhook.py:182-199 | A completed close lets the chain run on. |
| WebhookPort.WebhookListener.RunChain | util/webhook.py:182-188 | Steps run one after the other up to one that has to wait. |
| WebhookPort.WebhookListener.StartPort | util/webhook.py:201-219 | A start that was superseded does nothing; a bind that fails withdraws the address. |
| WebhookPort.DrainThenMore | util/webhook.py:182-188 | Adding a step to a chain that has run is running the chain with the step added. |
| WebhookPort.EventKeeps | util/webhook.py:149-219 | Every call, check and completion keeps the invariant of the chain. |
| WebhookPort.RunKeeps | util/webhook.py:149-219 | Over every interleaving and whatever the binds do: at most one port is open, each was bound when none was, and when the chain is idle a port is open exactly if an address is claimed, and is bound to it. |
| WebhookPort.RunMeetsClaim | util/webhook.py:149-180 | Over every run the address is the one last asked for, or none exactly if an attempt to bind it has failed since it was taken up. |
| WebhookPort.SettlesOnClaim | util/webhook.py:149-219 | Once idle, the port is bound to what was asked for if and only if no attempt to bind it has failed since. |
| WebhookPort.SettlesExactly | util/webhook.py:182-219 | From any point of any run, once the chain has settled the port is bound to an address if and only if that address is claimed and every attempt to bind it that is queued succeeds. |
| WebhookPort.ListenGets | util/webhook.py:149-219 | A listen on a new address gets it if and only if its own attempt succeeds, and so do those on that address that are queued before it. |
| WebhookPort.OwnAttemptDecides | util/webhook.py:149-219 | It depends on its own attempt alone, whatever the other binds do, if and only if no start of that address is queued. |
| WebhookPort.ListenDroppedWithEarlierOne | util/webhook.py:201-219 | From any idle state with a port elsewhere: three listens and a bind that fails leave no port, though the last listen was never tried. |
| WebhookPort.ChainSettles | util/webhook.py:182-199 | The chain is idle after as many completed closes as steps were waiting, and one. |
| WebhookPort.ReloadKeepsPort | util/webhook.py:149-219 | For any mix of reloads and completed closes, with a handler back before each claim check and the address still claimed at each listen: the port, the chain and all that was bound and closed are what the completions alone make of them. |
| WebhookPort.HonouredReloads | util/webhook.py:149-219 | The address stays claimed through every such mix if each attempt on it that is queued succeeds. |
| WebhookPort.LastBodyLimit | util/webhook.py:149-164 | In every run the limit on a body is that of the last listen, also of one that keeps the address. |
| NameSegments.JoinSplit | pyburlybot_modules/remind_common.py:153-153 | Joining the parts of a text by commas gives the text. |
| NameSegments.SplitPlain | pyburlybot_modules/remind_common.py:153-153 | No part of the split has a comma in it, so it is the only such list that joins to the text. |
| NameSegments.SegmentsExactly | pyburlybot_modules/remind_common.py:168-199 | A list of segments is leftmost-shortest, each the shortest run that resolves or a part that begins no such run, if and only if it is the one computed. |
| NameSegments.PiecesRejoin | pyburlybot_modules/remind_common.py:168-199 | The segments hold every part once and in order. |
| NameSegments.TextRejoined | pyburlybot_modules/remind_common.py:153-199 | Joined by commas they are the text that was asked about. |
| NameSegments.TakeSegment | pyburlybot_modules/remind_common.py:168-199 | One turn of the loop takes the next segment off the deque and puts back what it took too much. |
| NameSegments.PushBack | pyburlybot_modules/remind_common.py:197-199 | Extending to the left with the reversed parts restores their order. |
| NameSegments.Collect | pyburlybot_modules/remind_common.py:157-166 | Users, the set of seen users and both flags stay what was found so far. |
| NameSegments.GenerateUsers | pyburlybot_modules/remind_common.py:143-200 | The loop terminates: the users are those the segments resolve to, without the skipped caller, each at first mention; the unknown parts are the nonempty unresolved ones; a duplicate is reported exactly if someone repeats, and the caller exactly if named and skipped. |
| NameSegments.FirstsDistinct | pyburlybot_modules/remind_common.py:157-166 | The users returned are pairwise distinct, and all who were found. |
| NameSegments.FirstsAreFirst | pyburlybot_modules/remind_common.py:157-166 | Each is returned under the name it was first called by. |
| NameSegments.FirstsAllExactly | pyburlybot_modules/remind_common.py:157-166 | Nobody is left out exactly if nobody repeats. |
| NameSegments.FoundExactly | pyburlybot_modules/remind_common.py:168-193 | Segment by segment, a known one adds the user that its text names, called by that text, or else the members of the group, each called by their own name; an unknown one adds nobody. |
| NameSegments.UsersExactly | pyburlybot_modules/remind_common.py:157-166 | The users returned are, in order, those found at the places where a user who is not the skipped caller is called for the first time. |
| NameSegments.DupesExactly | pyburlybot_modules/remind_common.py:157-166 | A duplicate is reported if and only if two places call one user who is not the skipped caller. |
| NameSegments.UnknownsExactly | pyburlybot_modules/remind_common.py:194-199 | The unknown names are, in order, the first parts of the unknown segments that are not empty. |
| DateSearch.NthDay | util/helpers.py:405-436 | The least date strictly after today on the n-th, across short months, leap years and year ends; None exactly in the last month of year 9999 once the day has come. |
| DateSearch.MonthDay | util/helpers.py:397-404 | The least later date with that month and day, or None if there is none, if and only if it is not a 29 February that is gone while another is to come. |
| DateSearch.TomorrowIsNext | util/helpers.py:441-441 | The day after is the next valid date, and the calendar's day count goes up by one across months, leap days and years. |
| DateSearch.WeekdayExactly | util/helpers.py:457-463 | The weekday of every date, counted in days from 1 January 1970, which was a Thursday. |
| DateSearch.WalkToWeekday | util/helpers.py:457-463 | Of the following days none before the last is on the weekday. |
| DateSearch.NextWeekday | util/helpers.py:443-463 | The least date strictly after today on the weekday, None only past the last date. |
| DateSearch.ClockTime | util/helpers.py:437-441 | The least moment strictly later at that hour and minute: today, or tomorrow once it has struck. |
| DbWorker.Connection.ExecuteBatch | util/db.py:235-248 | A batch is all or nothing: every query's rows with every query in effect, or no rows and the database as before; no transaction is left open. |
| DbWorker.DBaccess.Submit | util/db.py:250-257 | A job is refused exactly if the worker has ended or been told to stop, and queued otherwise. |
| DbWorker.DBaccess.Stop | util/db.py:279-286 | The stop mark is queued once, behind all that was accepted. |
| DbWorker.DBaccess.Take | util/db.py:209-231 | One turn of the loop performs the first job and answers it, or ends the worker. |
| DbWorker.StepKeeps | util/db.py:209-286 | Every submission, stop and take keeps the invariant of the queue. |
| DbWorker.PerformExactly | util/db.py:209-248 | A single query is answered with the rows that the engine gives, and its effect is kept. A batch that begins, succeeds query by query and commits is answered with the rows of each query on the database that those before it left, and leaves that of the last; any other batch is answered with an error and leaves the database as it was. |
| DbWorker.AcceptedExactly | util/db.py:250-286 | In every run the jobs accepted are those submitted before the first stop, in order. |
| DbWorker.EveryRun | util/db.py:209-286 | In every interleaving the answers are those of the first accepted jobs, performed one after the other; the rest is in the queue of a living worker, none behind the stop mark; a worker that has ended has answered all. |
| DbWorker.AllAnswered | util/db.py:209-286 | After as many takes as items are queued every accepted job has its one answer, and a worker told to stop has ended. |
| DbWorker.StoppedAcceptsNothing | util/db.py:250-257 | Once told to stop, a worker accepts nothing more. |
| DbManager.DBManager.GetDB | util/db.py:107-108 | The label's worker, or the main one; while all is exact, a running worker on the file configured for the label. |
| DbManager.DBManager.Launch | util/db.py:83-86 | A new worker is kept under its file before it is started, and stays there if starting it raises. |
| DbManager.DBManager.AddServer | util/db.py:70-88 | A label is added or moved as configured. The call raises if and only if a worker is needed that cannot be made or started; the counts and maps stay exact if and only if it does not raise, or raises for a label that was not mapped because no worker can be made. |
| DbManager.DBManager.DelServer | util/db.py:99-102 | A label is removed, its worker is stopped with the last one, and what was exact stays so. |
| DbManager.DBManager.Release | util/db.py:90-94 | One label less on a worker, which goes and is stopped with the last. |
| DbManager.DBManager.Shutdown | util/db.py:110-115 | Every worker is told to stop. |
| DbManager.GoodRelease | util/db.py:90-94 | Giving up a label keeps each worker's count equal to the labels that use its file, and at least one. |
| DbManager.GoodAdd | util/db.py:81-88 | So does taking one up, with a new worker or one that is there. |
| DbManager.NotGood | util/db.py:76-88 | A label still mapped to a worker that has given it up breaks the count or the map. |
| DbManager.MoveThatFails | util/db.py:76-88 | A network alone on its file moves to a file for which no worker can be made, and stays mapped to its old worker, which has been told to stop. |
| DbManager.StartThatFails | util/db.py:83-88 | For a network that was never mapped a worker is made that cannot be started; the next network on that file is added without an error and gets the worker that never runs. |
| DbManager.OneWorkerPerFile | util/db.py:70-94 | A worker is kept for exactly the files some label is configured for, and labels share one exactly if they share the file. |
| Evaluator.BitLengthExactly | pyburlybot_modules/ai_tools/calculator.py:55-55 | The bit length is the least number of bits that hold the number. |
| Evaluator.FloorIsFloor | pyburlybot_modules/ai_tools/calculator.py:12-19 | Floor division rounds down for every sign, its remainder has the divisor's sign, and the quotient is no larger than the dividend. |
| Evaluator.PowerNeverTooLarge | pyburlybot_modules/ai_tools/calculator.py:61-74 | The check before a power is sound: no power that is computed has more than 8192 bits. |
| Evaluator.PowerRefusedThoughItFits | pyburlybot_modules/ai_tools/calculator.py:64-70 | And not complete: a power of 7713 bits is refused. |
| Evaluator.PowerCheckExactly | pyburlybot_modules/ai_tools/calculator.py:64-72 | For the bases of b bits and an exponent r from 1 to 512, the check is right about all of them if and only if b r is at most 8192, so that all are accepted, or (b - 1) r is at least 8192, so that all are too large. |
| Evaluator.ApplyBits | pyburlybot_modules/ai_tools/calculator.py:43-57 | One operation on numbers of at most 8192 bits computes one of at most 16384. |
| Evaluator.EvalBounded | pyburlybot_modules/ai_tools/calculator.py:36-74 | From literals of at most 8192 bits every sub-result has at most 8192 bits, and nothing computed on the way more than 16384. |
| Evaluator.EvalExact | pyburlybot_modules/ai_tools/calculator.py:36-74 | A number is given if and only if the expression means that number, said by sums, products, quotients and remainders and not by what the calculator computes with, and everything that goes into it passes the guards. |
| Evaluator.ApplyExactly | pyburlybot_modules/ai_tools/calculator.py:12-74 | Each operation gives a number exactly if it is the mathematical result: the sum, difference or product; for floor division and remainder the one quotient and the one remainder that has the divisor's sign and is smaller; and a power that the check lets through. |
| Evaluator.PowerLaw | pyburlybot_modules/ai_tools/calculator.py:61-74 | Powers of one number multiply as their exponents add, and the first is the number. |
| Evaluator.EvalFailsExactly | pyburlybot_modules/ai_tools/calculator.py:36-74 | An error is given if and only if it is the first failure, left operand first: a zero divisor, a negative power of zero, an exponent beyond 512, or a result that is refused. |
| Evaluator.ResultsOfAll | pyburlybot_modules/ai_tools/calculator.py:36-58 | If a value is given, the values of all sub-expressions are among the results that are bounded. |

## Left out

- TextSplit.SplitEncoded: models the UTF-8 branch alone; the trimming for other encodings (util/helpers.py:308-324) depends on the codec. Text is a sequence of Unicode scalar values, so the lone surrogates that Python strings may hold are not modelled.
- Agreement.RanksExactly: how the arguments of a mode line are parsed into changes is an arbitrary function (Twisted's `parseModes`), as are the prefix characters that the server announces.
- MessageBudget.AssembledFits: lists of replacements and a known prefix length alone. String and dictionary replacements, the estimate used before the prefix is known, and characters that low-level quoting would expand depend on library text formatting.
- MessageBudget.AssembleMsg: templates have numbered fields without format specifications.
- Throttle.AtMostThreePerSecond: says nothing of lines that leave by other ways than `sendLine`; the delayed call fires no earlier than it is due.
- ModuleLoader.Loader.Reload: the outcomes of importing, configuring and initialising a module are a function of its name, so a module that fails once and works later is not modelled. The text of error messages is data, not strings.
- EventIndex.Dispatcher.Dispatch: models which handlers fire and in what order, not the threads and the Deferred chain they run on; parsing the command and matching expressions are inputs.
- Waiters.WaitMap.Dispatch: a waiter's queue is everything put on it; taking events off in a generator's thread, with its timeouts, is not modelled.
- Membership.Network.UserJoin: ident, host and hostmask of a user are not modelled, nor are topics, ban lists and the channel modes that are not ops or voices.
- Membership.Network.UserRename: requires that a tracked user does not take the nick of another tracked one, as holds in every run whose lines are taken as they are meant (Agreement.RunSafe); the source would leave the other user's object unlinked.
- RelayServer.Server.Serve: each command is one atomic step. In the code the lock covers the tables and not the sending, so lines of commands that are served at the same time may overtake each other, as Mistakes.OvertakenJoinIsMissed shows; the runs here do not interleave.
- RelayServer.Server.Tell: error replies, PRIVMSG, NOTICE and PING change no membership and are left out. If one of their lines cannot be sent, the client's thread ends, which is the command Disconnect in a run.
- RelayServer.Server.UserCommand: a parameter before the last is a word, as splitting the line at white space gives it; other parsing of a client's line is left out.
- Wire.LegibleHeard: both ends use UTF-8, the default. Twisted's `lowDequote` and `parsemsg` are modelled as that library defines them, on the lines of this server, which begin with a colon and carry no tags. A line that is cut right behind its prefix makes `parsemsg` raise and ends the bot's connection; here it is not heard. The bot takes the nick of the welcome from what it had asked for; the server holds that as the bot quoted it.
- Agreement.RunAgreesExactly: the bot keeps state of the network throughout, and its features do not change after the welcome.
- WebSocket.Client.RecvText: returns the bytes of the message; decoding them with "replace", timeouts and the opening handshake are left out.
- Intervals.Subtract: timestamps are real numbers; the source only compares them here.
- Availability.WeeklyIntervals: one fixed offset from UTC; time zones whose offset changes, with the hours that are skipped or come twice, are library rules. SlotIntervals and FindAvailability take any occurrences.
- Availability.FindAvailability: takes a schedule that is well formed; the order of two windows that start together under one name is not stated.
- WebhookPort.RunKeeps: a close that fails counts as completed, as the chain treats it; HTTP handling is left out.
- NameSegments.GenerateUsers: the users module is an arbitrary directory that does not change during a call.
- DateSearch.NthDay: parsing the text of a specification is library work; the relative specifications ("in 3 days"), "lunch" and "tomorrow" are left out as they involve no search.
- DateSearch.NextWeekday: None stands for the OverflowError past the last date, as it does in DateSearch.ClockTime.
- DbWorker.EveryRun: for a worker that starts normally; a checkpoint is one more single statement; a caller that waits in `join`, and `ManagerThread`, whose `call` does not hold a lock, are left out.
- DbWorker.Connection.ExecuteBatch: a rollback succeeds; what a statement does to the database is an arbitrary function.
- Evaluator.EvalBounded: integers alone; true division and negative powers give floats, at which the model ends. Literals are numbers, as the parser gives them.
- `util/settings.py`, parsing with regular expressions, the web and chat commands, sockets, TLS and the deployment scripts: plumbing and library work.

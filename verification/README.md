# Call, registration and push logic of the Plivo Android SDK

This project models `pjsip-jni/jni/plivo_app_callback.cpp`, the layer between the Android
application and the PJSIP library, and proves what its tokenizer, header-list surgery, call-quality
reports, call events and login state promise. `dafny verify dfyconfig.toml` checks all of it.

| file | subject |
|---|---|
| `Tokenizer.dfy` | `split` over `std::getline`, and its laws with joining |
| `PushMessage.dfy` | the "key:value,key:value" parsers of `relayVoipPushNotification` and `CallH`, and the key scan |
| `IncomingHeaders.dfy` | the X-PH collector of `on_incoming_call` |
| `HeaderList.dfy` | the circular doubly linked header list with a sentinel, and the erase-while-walking loop |
| `CallHeaders.dfy` | the header list `CallH` puts on a call |
| `Registration.dfy` | the account configuration under pushes, token registrations and timeout changes |
| `Mos.dfy` | the score of `getMOS` |
| `CallEvents.dfy` | the callbacks of `on_call_state` and their language |
| `CallMonitor.dfy` | the file-level call state: current call, packet baselines, callbacks made |
| `CallStatistics.dfy` | the polled reports over whole runs |
| `Session.dfy` | `is_logged_in`, `logout_requested`, the account table, `is_registered` |
| `Options.dfy` | a value that may be absent |

File-level variables of the program are fields of a class (`Registration.Account`,
`CallMonitor.Monitor`, `Session.Session`); each entry point is a method whose contract ties the new
state to a step function, and the properties over whole runs are proved about that function.

## The environment

PJSIP is not part of the repository. What the model takes from it is stated here.

- `pjsua_acc_get_config` hands out a copy of the account's configuration; a successful
  `pjsua_acc_modify` replaces the stored one and a failed one leaves it alone. The library's answers
  (`verified`, `modified`, `added`, `ok`) are parameters.
- `pj_list_push_back` inserts before the sentinel; `pj_list_erase` unlinks a node and links it to itself.
- Packet counters are unsigned 32-bit; the baselines and reported counts are `int`, taken as signed
  32-bit. Wrapping is modelled: the run theorems speak of counts of any size and ask only that a poll's
  counts be within 2^31 of its baselines. Delays are not negative.
- A call's counters do not fall between two polls unless an answer comes between them.
- INVITE states rise, EARLY alone repeats, and the last one is DISCONNECTED; a caller starts in
  CALLING. Statuses are free; the language theorem says which of them keep the events in order.
- Registration callbacks, API calls and the two halves of `Logout` interleave freely, one at a time.

## Where the code falls short of what it promises

- `SpacedKeysAreMissed`: the comment above `relayVoipPushNotification` shows a space after each comma;
  the code compares keys whole, so " index" is not found. The model follows the code.
- A push text with an item that has no piece, or without one of the three keys, makes the code read
  past a vector or use an unset variable. `EmptyItems` and `CompleteExactly` say exactly when.
- `CallH` does the same for an item whose value is empty (`HeaderRoundTrip`).
- `MoreLossHigherScore`, `LowerScoresNoHigherExactly`: under a rating of about 3.46 more loss can raise the score.
- `LateRinging`, `SessionLanguage`: a 180 or 183 left standing at CONFIRMED or DISCONNECTED takes the
  place of the answer or of the terminal callback. The environment stated above allows this input;
  whether the library ever reports it cannot be told from the repository.
- `OtherCallDisturbs`, `RunsSoundExactly`: a state change of another call between polls makes counts
  negative and the score 4.5, a value no real connection can be given. Exactly while the last counts
  seen of the current call are not below the baselines is every next poll sound.
- `EarlyLogoutComesLate`: a `Logout` before the first 200 does not stop the login; it is carried out at
  the next 200.
- `FailedRetryLosesLogout`, `First200LogsOut`: a failed second `Logout` cancels a first one that succeeded.
- `SecondLoginMisread`, `RegisteredExactly`: `is_registered` always answers from slot 0, so it is right
  for that account only.

## Model

| member | source | states |
|---|---|---|
| Tokenizer.StringStream.GetLine | pjsip-jni/jni/plivo_app_callback.cpp:137-144 | one `getline`: it fails exactly at the end of the text, else takes one item off the front of what is left |
| Tokenizer.SplitInto | pjsip-jni/jni/plivo_app_callback.cpp:137-144 | the loop appends every item, a trailing delimiter opening no empty last item, to the vector it is given |
| Tokenizer.ItemsAreFree | pjsip-jni/jni/plivo_app_callback.cpp:137-151 | no item holds the delimiter |
| Tokenizer.JoinItems | pjsip-jni/jni/plivo_app_callback.cpp:137-151 | joining the items gives the text back, less at most one trailing delimiter |
| Tokenizer.SplitInvertsJoin | pjsip-jni/jni/plivo_app_callback.cpp:137-151 | a list survives join-then-split if and only if its parts hold no delimiter and it does not end in an empty part |
| PushMessage.ParsePush | pjsip-jni/jni/plivo_app_callback.cpp:1069-1086 | the parser fills both vectors alike with the text before and after each item's first colon, and is undefined where an item has no piece |
| PushMessage.EmptyItems | pjsip-jni/jni/plivo_app_callback.cpp:1074-1078 | an item without pieces is met if and only if some comma comes first or follows a comma |
| PushMessage.PushRoundTrip | pjsip-jni/jni/plivo_app_callback.cpp:1069-1086 | the text of a pair list parses back to it, empty keys and values included, if and only if no key or value holds a comma or colon |
| PushMessage.ParseHeaders | pjsip-jni/jni/plivo_app_callback.cpp:769-775 | the `CallH` parser, undefined where an item has no second piece |
| PushMessage.HeaderRoundTrip | pjsip-jni/jni/plivo_app_callback.cpp:769-775 | the same round trip for `CallH`, if and only if moreover every value is non-empty |
| PushMessage.HeaderFieldsExactly | pjsip-jni/jni/plivo_app_callback.cpp:769-775 | for every text: defined if and only if each comma item has two colon pieces, and then those two are its key and value |
| PushMessage.ScanKeys | pjsip-jni/jni/plivo_app_callback.cpp:1088-1114 | label, index and registrar are looked up in the map folded from the pairs, left to right |
| PushMessage.LastWins | pjsip-jni/jni/plivo_app_callback.cpp:1088-1114 | that map holds a key if and only if it occurs, with the value of its last pair |
| PushMessage.DecodeFormatted | pjsip-jni/jni/plivo_app_callback.cpp:1069-1114 | parse and scan together: the text of a pair list yields the last value of each key |
| PushMessage.DecodedExactly | pjsip-jni/jni/plivo_app_callback.cpp:1069-1114 | for every text: each value is the second colon piece, or nothing, of the last comma item whose first piece is its key |
| PushMessage.SpacedKeysAreMissed | pjsip-jni/jni/plivo_app_callback.cpp:1037-1039 | with a space after each comma, as the comment shows, index and registrar stay unset |
| IncomingHeaders.CollectExtras | pjsip-jni/jni/plivo_app_callback.cpp:174-191 | the loop and its final erase give the X-PH lines joined by commas |
| IncomingHeaders.ExtrasAround | pjsip-jni/jni/plivo_app_callback.cpp:181-189 | each line is kept in place and in its own case, or dropped, by whether its upper-cased form holds "X-PH", whatever stands around it |
| IncomingHeaders.ExtraExactly | pjsip-jni/jni/plivo_app_callback.cpp:178-185 | the upper-cased search finds a line if and only if it holds an x, a dash, a p and an h in a row, letters in either case |
| IncomingHeaders.KeptExactly | pjsip-jni/jni/plivo_app_callback.cpp:181-189 | by that alone each line is kept in its place, whatever stands around it |
| IncomingHeaders.ExtrasRecovered | pjsip-jni/jni/plivo_app_callback.cpp:174-193 | splitting the delivered text at commas recovers the lines if and only if none of them holds a comma |
| HeaderList.List.PushBack | pjsip-jni/jni/plivo_app_callback.cpp:1148-1149 | pushing back keeps the ring well formed and puts the node last |
| HeaderList.List.Erase | pjsip-jni/jni/plivo_app_callback.cpp:1141 | erasing keeps the ring well formed, removes that node alone, and leaves it linked to itself |
| HeaderList.List.EraseNamed | pjsip-jni/jni/plivo_app_callback.cpp:1137-1146 | for every well-formed ring the walk ends, keeps the ring well formed, and leaves exactly the nodes with neither name, in order |
| HeaderList.HeadersOfOthers | pjsip-jni/jni/plivo_app_callback.cpp:1137-1146 | read as headers, what is left is the list without the two names |
| HeaderList.ValuesOfOthers | pjsip-jni/jni/plivo_app_callback.cpp:1133-1146 | dropping two names empties what is read under them and changes nothing read under any other |
| CallHeaders.CustomHeaders | pjsip-jni/jni/plivo_app_callback.cpp:757-793 | `CallH` puts one header an item on the call, in order: the first colon piece is its name, the second its value |
| CallHeaders.FormattedHeaders | pjsip-jni/jni/plivo_app_callback.cpp:757-793 | the text of a pair list puts exactly those headers on the call |
| Registration.Account.RegisterToken | pjsip-jni/jni/plivo_app_callback.cpp:989-1035 | appends one AndroidToken header and sets contact, timeout and keep-alive, or changes nothing when the library refuses |
| Registration.Account.RelayVoipPushNotification | pjsip-jni/jni/plivo_app_callback.cpp:1040-1178 | replaces the X-Label and X-Index pair and the proxy, or changes nothing on a bad URI or a refusal |
| Registration.PushStores | pjsip-jni/jni/plivo_app_callback.cpp:1051-1174 | by the literal names and texts: a verified and stored push leaves one label, one index and the TLS address of its registrar; any other push leaves everything |
| Registration.Account.SetRegTimeout | pjsip-jni/jni/plivo_app_callback.cpp:533-544 | changes the timeout alone |
| Registration.CompleteExactly | pjsip-jni/jni/plivo_app_callback.cpp:1076-1129 | the values a push uses are all set if and only if no item is empty and the three keys occur |
| Registration.RunShape | pjsip-jni/jni/plivo_app_callback.cpp:989-1178 | after any run the header list is: foreign headers, tokens before the last stored push, its label and index, tokens after it |
| Registration.RunTokens | pjsip-jni/jni/plivo_app_callback.cpp:1009-1030 | after any run the tokens read are the earlier ones and then one per successful registration, in call order |
| Registration.RunOthers | pjsip-jni/jni/plivo_app_callback.cpp:1121-1174 | after any run label and index are those of the last stored push, or as before it; foreign names are untouched |
| Registration.RunFromEmpty | pjsip-jni/jni/plivo_app_callback.cpp:989-1178 | from an empty list: at most one label and one index, always both or neither, one header a stored token, and no other header |
| Registration.WireHeaders | pjsip-jni/jni/plivo_app_callback.cpp:989-1178 | the same by the literal header names |
| Registration.RunProxy | pjsip-jni/jni/plivo_app_callback.cpp:1151-1174 | the proxy is that of the last stored push |
| Registration.ProxyNamesRegistrar | pjsip-jni/jni/plivo_app_callback.cpp:1151-1172 | over every run the proxy is "sip:", the registrar of the last stored push and ";transport=tls", so the registrar can be read off it |
| Registration.RunContact | pjsip-jni/jni/plivo_app_callback.cpp:1017-1030 | the contact parameters are those of the last stored token |
| Registration.ContactNamesToken | pjsip-jni/jni/plivo_app_callback.cpp:1017-1026 | over every run the contact parameters are ";app_id=", the last stored token and ";platform_type=GCM", so the token can be read off them |
| Registration.RunTimeout | pjsip-jni/jni/plivo_app_callback.cpp:533-544 | the timeout is that of the last stored token or timeout, whichever came later |
| Registration.ThirtyDays | pjsip-jni/jni/plivo_app_callback.cpp:1027-1030 | after the last stored token, with no timeout stored later: 2592000 seconds, and no keep-alive |
| Registration.RunKeepAlive | pjsip-jni/jni/plivo_app_callback.cpp:1028-1030 | the keep-alive interval is 0 from the first stored token on |
| Registration.RefusedChangesNothing | pjsip-jni/jni/plivo_app_callback.cpp:1032-1177 | a call refused by the URI check or by the library changes nothing |
| Mos.ComputeMos | pjsip-jni/jni/plivo_app_callback.cpp:1204-1218 | the branches compute the score of the rating |
| Mos.RatingFalls | pjsip-jni/jni/plivo_app_callback.cpp:1204-1209 | with latency the rating falls by at least a fortieth and at most a tenth of the gap, across the breakpoint too: strictly falling and continuous |
| Mos.RatingAtRest | pjsip-jni/jni/plivo_app_callback.cpp:1204-1210 | without delay and loss the rating is 92.95 |
| Mos.RttResponse | pjsip-jni/jni/plivo_app_callback.cpp:1204-1209 | a microsecond of round trip costs between an 80000th and a 20000th, exactly the first while the delay stays within 160, exactly the second beyond |
| Mos.JitterResponse | pjsip-jni/jni/plivo_app_callback.cpp:1204-1209 | a millisecond of jitter costs between a 20th and a 5th, split at the same point |
| Mos.LossResponse | pjsip-jni/jni/plivo_app_callback.cpp:1210 | loss costs exactly 250 a unit |
| Mos.ScoreAnchors | pjsip-jni/jni/plivo_app_callback.cpp:1211-1217 | 1 at and under 0, 4.5 over 100, and in between one cubic, given by its coefficients and four of its values |
| Mos.MosRange | pjsip-jni/jni/plivo_app_callback.cpp:1188-1219 | for all non-negative inputs the R > 100 branch is not taken and the score lies in 0.98 to 4.41, at least 1 when R is 0 or less or 7 or more |
| Mos.UnderOneExactly | pjsip-jni/jni/plivo_app_callback.cpp:1211-1217 | the score is under 1 if and only if R is positive and before the root of the cubic's quadratic factor |
| Mos.DipEnds | pjsip-jni/jni/plivo_app_callback.cpp:1211-1217 | that root lies between 6.99 and 7 |
| Mos.WorseScoresNoHigher | pjsip-jni/jni/plivo_app_callback.cpp:1191-1217 | a connection worse in round trip, jitter and loss scores no higher when its rating is at least 3.46 |
| Mos.ScoreRises | pjsip-jni/jni/plivo_app_callback.cpp:1216 | from 3.5 to 92.95 a higher rating scores strictly more |
| Mos.LowerScoresNoHigherExactly | pjsip-jni/jni/plivo_app_callback.cpp:1211-1217 | for every rating: no higher rating scores less if and only if it is positive and a quadratic in it alone is not positive |
| Mos.FallEnds | pjsip-jni/jni/plivo_app_callback.cpp:1216 | that quadratic changes sign between 3.45 and 3.46 and not again before 92.95 |
| Mos.MoreLossHigherScore | pjsip-jni/jni/plivo_app_callback.cpp:1210-1217 | a pair of inputs where more loss raises the score |
| CallEvents.SessionLanguage | pjsip-jni/jni/plivo_app_callback.cpp:301-387 | the callbacks of a session lie in `Call Ringing* Connecting? Answered? (Rejected\|Invalid\|Hangup)`, without `Call` for a callee, if and only if it is orderly |
| CallEvents.OneTerminal | pjsip-jni/jni/plivo_app_callback.cpp:323-386 | in that language exactly one callback is terminal, the last |
| CallEvents.EveryCause | pjsip-jni/jni/plivo_app_callback.cpp:301-387 | over every trace each callback is made once for each change that causes it and for no other, cause by cause |
| CallEvents.LateRinging | pjsip-jni/jni/plivo_app_callback.cpp:308-314 | a session that ends with a final status and still leaves the language |
| CallMonitor.Monitor.OnCallState | pjsip-jni/jni/plivo_app_callback.cpp:288-388 | the if-chains emit what a table by state says, set the current call always, and clear the baselines on an answer alone |
| CallMonitor.EveryCallInLanguage | pjsip-jni/jni/plivo_app_callback.cpp:288-388 | for every interleaving of calls and polls, each call's own callbacks lie in the language if and only if its session is orderly |
| CallMonitor.HeardExactly | pjsip-jni/jni/plivo_app_callback.cpp:288-388 | for every interleaving each call hears each callback once for each change of its own that causes it |
| CallMonitor.EndToldExactly | pjsip-jni/jni/plivo_app_callback.cpp:323-386 | for every interleaving the last callback of an orderly call is a hangup at 200, a rejection at 480 to 489 for the caller and 486 or 487 for the callee, and invalid otherwise |
| CallMonitor.Projection | pjsip-jni/jni/plivo_app_callback.cpp:288-388 | the callbacks of one call, out of any interleaving, are those of its own state changes in order |
| CallMonitor.Monitor.GetMos | pjsip-jni/jni/plivo_app_callback.cpp:1188-1219 | local: threshold jitter and the loss passed in; remote: whole jitter and the loss against the baselines |
| CallMonitor.LocalResponse | pjsip-jni/jni/plivo_app_callback.cpp:1191-1197 | the local rating ignores received jitter and sent jitter up to 20 ms, and falls with sent jitter above it |
| CallMonitor.RemoteResponse | pjsip-jni/jni/plivo_app_callback.cpp:1198-1199 | the remote rating ignores sent jitter and falls with received jitter from nothing |
| CallMonitor.CommonResponse | pjsip-jni/jni/plivo_app_callback.cpp:1204-1210 | both ratings fall with the round trip, and by 250 a unit of loss |
| CallMonitor.DelaysLowerScores | pjsip-jni/jni/plivo_app_callback.cpp:1188-1219 | so from a rating of 3.5 longer delays score strictly less, locally and remotely |
| CallMonitor.Monitor.GetRemoteStats | pjsip-jni/jni/plivo_app_callback.cpp:1254-1285 | the report is held against the old baselines, which become the snapshot; the share times the total gives the loss back |
| CallMonitor.Monitor.GetLocalStats | pjsip-jni/jni/plivo_app_callback.cpp:1287-1346 | the report and its score, the lower of both directions; share, round trip and jitter give back what was counted; no state changes |
| CallStatistics.ReportedCounts | pjsip-jni/jni/plivo_app_callback.cpp:1268-1269 | reported counts are the true differences wrapped once, for counters of any size |
| CallStatistics.ExactBelowHalf | pjsip-jni/jni/plivo_app_callback.cpp:1268-1301 | the reported difference of a growing counter is the true one if and only if it is under 2^31 |
| CallStatistics.GoodCounts | pjsip-jni/jni/plivo_app_callback.cpp:1268-1301 | against baselines not above the snapshot: the reported counts are the true ones and none is negative |
| CallStatistics.GoodRanges | pjsip-jni/jni/plivo_app_callback.cpp:1188-1306 | counts that are not negative give a remote loss in 0 to 1 with the forced 1.0 not taken, and a score in 0.98 to 4.41 |
| CallStatistics.StateIsTruth | pjsip-jni/jni/plivo_app_callback.cpp:1180-1185 | over any run the baselines are the true counts at the last remote poll since an answer, narrowed |
| CallStatistics.BaseStaysBelow | pjsip-jni/jni/plivo_app_callback.cpp:1180-1185 | over any run the baselines are at or below the counters of the call they belong to |
| CallStatistics.UndisturbedPollsAreTrue | pjsip-jni/jni/plivo_app_callback.cpp:288-353 | after an answer and until another call changes state, every poll is true, non-negative and in range |
| CallStatistics.SoundExactly | pjsip-jni/jni/plivo_app_callback.cpp:1268-1306 | of a snapshot within 2^31 of the baselines: all four counts are non-negative and loss shares and score in range if and only if no counter is below its baseline |
| CallStatistics.NextPollsSoundExactly | pjsip-jni/jni/plivo_app_callback.cpp:1268-1306 | in any state, every next poll within reach of the baselines is reported so if and only if the last counts seen of the current call are not below the baselines |
| CallStatistics.RunsSoundExactly | pjsip-jni/jni/plivo_app_callback.cpp:288-353 | the same after any run, of the baselines the program then holds |
| CallStatistics.OtherCallDisturbs | pjsip-jni/jni/plivo_app_callback.cpp:288-289 | another call's state change between two polls: minus ten packets are lost and the score is 4.5 |
| CallStatistics.RemoteTotals | pjsip-jni/jni/plivo_app_callback.cpp:1268-1270 | after an answer, over any polls, remote losses sum to the last loss count and receptions to received plus lost |
| CallStatistics.LocalTotals | pjsip-jni/jni/plivo_app_callback.cpp:1300-1301 | over rounds of a local and a later remote poll, local counts and the uncovered gaps sum to the last local snapshot, for sent and lost alike |
| CallStatistics.LocalThenRemote | pjsip-jni/jni/plivo_app_callback.cpp:1200-1202 | `getLocalStats` then `getRemoteStats` on one snapshot: the score counts the loss share the remote report returns |
| CallStatistics.RemoteThenLocal | pjsip-jni/jni/plivo_app_callback.cpp:1268-1306 | `getRemoteStats` then `getLocalStats` on one snapshot: local counts are zero and the score counts no loss |
| Session.Session.LoginSip | pjsip-jni/jni/plivo_app_callback.cpp:401-491 | adds an account only when logged out and the name fits, and returns 0 or 4 by the way out |
| Session.LoginExactly | pjsip-jni/jni/plivo_app_callback.cpp:407-491 | an account is added if and only if logged out, with a name under 213 characters and the library willing; nothing else changes |
| Session.Session.StartLogout | pjsip-jni/jni/plivo_app_callback.cpp:503-520 | sets the request flag if and only if the account is valid |
| Session.Session.EndLogout | pjsip-jni/jni/plivo_app_callback.cpp:520-525 | a refusal clears the request flag and returns 5 |
| Session.Session.OnRegState | pjsip-jni/jni/plivo_app_callback.cpp:222-277 | the chain of status tests comes to: any status but 200 is one failed login and changes no flag |
| Session.LoginsAlternate | pjsip-jni/jni/plivo_app_callback.cpp:222-277 | over every interleaving logins and logouts strictly alternate, login first |
| Session.FlagCounts | pjsip-jni/jni/plivo_app_callback.cpp:222-277 | over every interleaving is_logged_in is logins less logouts, always 0 or 1 |
| Session.LogoutsArePaidFor | pjsip-jni/jni/plivo_app_callback.cpp:248-253 | over any stretch of any run, logouts and an open request never exceed the requests made |
| Session.RequestBetweenLogouts | pjsip-jni/jni/plivo_app_callback.cpp:248-253 | between two logout events some `Logout` set the flag |
| Session.First200LogsOut | pjsip-jni/jni/plivo_app_callback.cpp:234-253 | with a request open, logged in or not, the first later 200 taken while logged in logs out, clears both flags and deletes the account it names if and only if no `Logout` failed after the last one that set the flag; else it changes nothing |
| Session.TakenExactly | pjsip-jni/jni/plivo_app_callback.cpp:248-253 | one 200 while logged in: with a request it emits the logout, clears both flags and deletes the account it names alone, else it changes nothing |
| Session.EarlyLogoutComesLate | pjsip-jni/jni/plivo_app_callback.cpp:234-253 | a `Logout` before the login is through: the first 200 still logs in with the request open, and the next one logs out |
| Session.FailedRetryLosesLogout | pjsip-jni/jni/plivo_app_callback.cpp:519-525 | a failed second `Logout` undoes a first that succeeded |
| Session.FailuresKeepFlags | pjsip-jni/jni/plivo_app_callback.cpp:254-276 | any number of callbacks other than 200 change no flag and report one failed login each |
| Session.Session.IsRegistered | pjsip-jni/jni/plivo_app_callback.cpp:108-135 | the loop over any number of accounts comes to a closed form that looks at slot 0 alone |
| Session.UnknownExactly | pjsip-jni/jni/plivo_app_callback.cpp:108-135 | in every reachable state the answer is -1 if and only if the account is not valid |
| Session.RightOnlyForSlot0 | pjsip-jni/jni/plivo_app_callback.cpp:112-133 | of a valid account the answer is right for all registration states of the table if and only if the account is in slot 0 |
| Session.RegisteredExactly | pjsip-jni/jni/plivo_app_callback.cpp:108-135 | in every reachable state the same, and already for all states of this one account |
| Session.DataStaysOwn | pjsip-jni/jni/plivo_app_callback.cpp:468-480 | in every reachable state each account's user data names the account |
| Session.LeavesExactly | pjsip-jni/jni/plivo_app_callback.cpp:248-253 | an account leaves the table if and only if a callback names it and emits the logout |
| Session.ValidExactly | pjsip-jni/jni/plivo_app_callback.cpp:407-480 | over every interleaving an account is in the table if and only if a login added it and no logout of it came since |
| Session.GoneAfterLogout | pjsip-jni/jni/plivo_app_callback.cpp:248-253 | after its logout an account is unknown to `is_registered`, and a `Logout` sets no request |
| Session.SecondLoginMisread | pjsip-jni/jni/plivo_app_callback.cpp:407-480 | a failed login and a second one: `is_registered` answers for the first account |

## Left out

- Registration.Account.RelayVoipPushNotification: asks for a complete push text, because the code uses unset variables otherwise.
- CallHeaders.CustomHeaders: asks for a second piece in every item, because the code reads past a vector otherwise; the empty-destination and bad-URI exits of `CallH`, which only log, are not modelled.
- Session.Session.LoginSip: is one step, so the moment between adding the account and setting its user data is not modelled; the account settings it fills in (URIs, credentials, SRTP, contact parameters) are passed on to the library unread, and are not modelled.
- Session.Session.OnRegState: the IPv6 switch taken on login is not modelled.
- CallMonitor.Monitor.GetRemoteStats: the byte count, SSRC and dictionary text around the counts are not modelled; GetLocalStats likewise, with the codec name.
- Mos.ComputeMos: rounding of floats and NaN are not modelled; floats are exact reals.
- `Call`, `Answer`, `Hangup`, `Reject`, `SendDTMF`, `Mute`, `UnMute`, `Hold`, `UnHold`, `handleIPChange`, `_getAudioLevels`, `LoginAgain`: calls into the library behind at most one test.
- `initPjsua`, `plivoStart`, `updateOpusBitrate`: configuration of the library.
- C buffers, string copies and `sprintf` sizes; debug logging; the end of a received message at its first NUL.
- The vendored Opus headers and the Java side of the SDK.

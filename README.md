# Mechanic Nikitich bot — a verified model of its core

The bot serves a car-service documentation tree (`DATA_JSON`) to a closed group of
mechanics over Telegram. A user logs in by sending a personnel number that is in
`AUTHORIZED_NUMBERS`. An unknown number is forwarded to the admins for approval. After the
third failed attempt the user is blocked for `BLOCK_DURATION` seconds. A logged-in user
walks the tree through reply-keyboard buttons or searches it with a synonym-expanded
query. The section "ресеты" is meant for admins and subscribers only. A middleware
silently drops users who flood the bot.

The model covers the following modules:

| module | models |
|---|---|
| `Config` | `config.py`: the authorised-number set, the admin ids with their warnings, the anti-flood settings, `BLOCK_DURATION`, the bot token |
| `Utils` | `get_env` in `utils.py` with its four casts |
| `FloodControl` | `FloodControlMiddleware` as a class whose per-user windows and blocks are updated in place |
| `Db` | `db.py`: a `Database` class over a sequence of user rows and a map of blocks; bcrypt is modelled by a `Digest` value |
| `Documents` | the documentation tree, `get_node_from_path`, `flatten_json`, `generate_menu` |
| `Search` | `expand_query` with the synonym table, `search_documents` |
| `EnvFile` | the callback data of an access request, the `.env` rewrite in `handle_add_number` |
| `Menu` | the conversation states of `handlers/menu.py` as pure transition functions |
| `Handlers` | the `handlers/menu.py` handlers as methods of a `MenuRouter` class that owns the per-user state and the database |

Supporting modules:
- `Text`: `strip`, `split`, `join`, `lower`, substring search.
- `Numbers`: decimal `int()` and `str()`.
- `Ordering`: Python's `sorted` on strings.
- `Wrappers`: `Option` and `Result`.

Conventions:
- Time, the bcrypt salt and the contents of the `.env` file are parameters.
- A Python exception that escapes a handler is the `Raised` outcome.
- A failed `int()` is `None`.

## Model

| member | source | states |
|---|---|---|
| Text.Strip | utils.py:6 | the result has no surrounding blanks and is no longer than the input |
| Text.StripIdempotent | utils.py:6 | stripping twice equals stripping once |
| Text.AllSpaceStripsToEmpty | utils.py:6 | a piece strips to empty exactly when it is all blanks, the `if num.strip()` filter |
| Text.Split | config.py:18 | `split(",")` gives at least one piece, and no piece holds the separator |
| Text.JoinSplit | config.py:18 | joining the pieces of a split with the separator gives back the input |
| Text.SplitJoin | config.py:18 | splitting a join of separator-free pieces gives back the pieces |
| Text.Lower | handlers/menu.py:445 | `lower()` keeps the length |
| Text.LowerIdempotent | handlers/menu.py:105 | lowering twice equals lowering once |
| Text.ContainsAt | handlers/menu.py:118 | `term in entry_text` holds exactly when the term occurs at some index |
| Numbers.NatToStringValue | handlers/menu.py:655 | the decimal text of an id reads back as that id |
| Numbers.ParseIntToString | handlers/menu.py:207-208 | `int(str(i)) == i` for every integer, negative ones included |
| Ordering.SortStringsCorrect | handlers/menu.py:87 | `sorted` gives an ordered permutation of its input |
| Ordering.InsertKeepsSorted | handlers/menu.py:87 | inserting into an ordered list keeps it ordered |
| Ordering.InsertKeepsElements | handlers/menu.py:87 | insertion adds exactly one occurrence of the element |
| Config.StrippedNonEmpty | config.py:15-20 | every kept piece is non-empty and stripped |
| Config.StrippedNonEmptyMembership | config.py:15-20 | a text is kept exactly when it is non-empty and is the strip of some piece |
| Config.CommaList | handlers/menu.py:226 | the list items are non-empty, stripped and comma-free |
| Config.CommaListOfJoin | handlers/menu.py:226-229 | reading back a list joined with `" ,"` (or any blank-padded comma) gives the same list |
| Config.CommaListOfEmpty | config.py:15-20 | an empty variable lists no number, although `"".split(",")` gives one empty piece |
| Config.GetAuthorizedNumbers | config.py:15-20 | every number is a valid list item, and a missing variable gives the empty set |
| Config.AuthorizedNumberMembership | config.py:15-20 | a number is authorised exactly when it is a non-empty stripped piece of the variable |
| Config.ParseAdminIds | config.py:36-44 | the loop collects the integer pieces in order and one warning per bad piece, blanks skipped |
| Config.AdminIdsFromPieces | config.py:36-44 | every collected id came from a piece that parses to it |
| Config.AdminIdsOfJoin | config.py:36-44 | a comma-joined list of decimal ids reads back exactly, with no warning |
| Config.DecimalIdsRead | config.py:42 | decimal ids are read back exactly and raise no warning |
| Config.DecimalIdClassified | config.py:42 | `int(str(i))` succeeds on every id |
| Config.AdminWarningsAreBadIds | config.py:43-44 | the loop warns only about bad ids |
| Config.AdminIdsOf | config.py:36-44 | the ids the admin loop appends, in order: one per piece that strips to an integer |
| Config.WarningsOf | config.py:24-73 | the warnings in the order the module logs them: empty numbers, suspicious token, each bad admin piece, no admins, short block |
| Config.FloodSettingsOf | config.py:50-64 | succeeds exactly when the three values parse, the limit and period are positive and the block time is non-negative, with 5/10/15 as defaults |
| Config.FloodDefaults | config.py:51-53 | without the variables the settings are 5, 10 and 15 |
| Config.BlockDurationOf | config.py:67-70 | the default is 300, otherwise the parsed value, and a non-integer fails |
| Config.BotTokenOf | config.py:28-30 | succeeds exactly when `BOT_TOKEN` is set and non-empty, and returns it |
| Config.LoadSettings | config.py:15-73 | the load fails on the first error in source order (token, anti-flood, block duration), so a bad `BLOCK_DURATION` alone gives its own error; otherwise it holds every parsed setting and exactly the warnings of `Config.WarningsOf`, in the order they are logged |
| Config.LoadedWarnings | config.py:24-73 | the warnings of a load (which `Config.LoadSettings` equates with `Config.WarningsOf`) hold one exactly for an empty number set, a suspicious token, an empty admin list and a block duration below 10, and one per unparsable admin piece |
| Utils.GetEnv | utils.py:15-45 | missing and required fails; missing and optional gives the default; `bool`, `list`, `str` and `int` casts behave as coded, with a failed `int` giving the default |
| Utils.BoolCastNeverDefaults | utils.py:38-39 | a present variable cast to `bool` is true exactly for `1`, `true`, `yes` or `on` |
| Utils.BoolCastIgnoresCase | utils.py:38-39 | the `bool` cast ignores the variable's letter case |
| Utils.ListCastMatchesAuthorizedNumbers | utils.py:40-41 | the `list` cast lists exactly the members of `AUTHORIZED_NUMBERS` |
| Utils.IntCastReadsDecimal | utils.py:42 | the `int` cast reads a decimal back exactly |
| FloodControl.Prune | middlewares/flood_control.py:30 | keeps exactly the timestamps within the period, so the window never grows |
| FloodControl.PruneKeepsRecent | middlewares/flood_control.py:30 | a window already inside the period is unchanged |
| FloodControl.PruneLater | middlewares/flood_control.py:30 | pruning at an earlier time and then at a later one equals pruning at the later one |
| FloodControl.FloodControlMiddleware.constructor | middlewares/flood_control.py:10-16 | stores the settings; admin ids come from the list or are empty; no window and no block |
| FloodControl.FloodControlMiddleware.Call | middlewares/flood_control.py:18-43 | admins always pass with nothing changed; a blocked user is dropped silently with nothing changed; otherwise the window is pruned and extended, and exceeding the limit blocks until `now + block_time` and warns |
| FloodControl.BurstScenario | middlewares/flood_control.py:22-43 | with default settings, seven messages at one instant: five pass, the sixth is warned, the seventh is dropped |
| Db.Hashpw | db.py:120 | the digest checks against the hashed number and no other |
| Db.DigestText | db.py:120 | the stored text is a bcrypt `$2b$` string |
| Db.IdsWithout | db.py:55-60 | deleting a user removes exactly that id |
| Db.WithoutMembers | db.py:55-60 | deletion keeps exactly the rows of other users |
| Db.WithoutKeepsUnique | db.py:55-60 | deletion keeps the primary key unique |
| Db.KeptRowsMembers | db.py:62-77 | the sweep keeps exactly the rows that pass the test |
| Db.RevokedPairs | db.py:62-77 | every row is either kept or reported as removed |
| Db.TextSweepKeepsNothing | db.py:62-77 | comparing bcrypt text to plain numbers removes every row (finding) |
| Db.HashSweepKeepsAuthorized | db.py:62-77 | checking the digest keeps exactly the rows whose number is authorised |
| Db.KeptRowsSubset | db.py:62-77 | the sweep keeps the primary key unique |
| Db.Unexpired | db.py:160-164 | keeps exactly the blocks that end after `now`, with unchanged times |
| Db.UnexpiredLater | db.py:160-164 | two expiry sweeps equal the later one |
| Db.Resubscribed | db.py:129-132 | the update keeps the row count |
| Db.ResubscribedKeepsIds | db.py:129-132 | the update keeps the set of users |
| Db.ResubscribedSets | db.py:129-132 | only the named user's flag changes, to the new value |
| Db.FirstNumber | db.py:199-204 | a number is found exactly for a stored user, and it is that user's digest |
| Db.Database.constructor | db.py:80-116 | an empty, valid database |
| Db.Database.GetUserNumber | db.py:199-204 | a digest is returned exactly for an authorised user, and it is the stored one |
| Db.Database.IsAuthorized | db.py:172-175 | a user is authorised exactly when a row with that id exists |
| Db.Database.IsBlocked | db.py:155-158 | a user is blocked exactly when a block record exists, whether or not its time has passed |
| Db.Database.SubscriptionActive | db.py:129-132 | the `subscription_active` flag of the user's row is set |
| Db.Database.AddUser | db.py:119-127 | `REPLACE INTO`: any old row goes, the new row holds the digest of the number, the role and the time, unsubscribed; the user is authorised and the digest checks |
| Db.Database.RemoveUser | db.py:55-60 | the user's row is deleted and nothing else changes |
| Db.Database.SetSubscription | db.py:129-132 | the users stay the same, and a stored user's flag is the new value |
| Db.Database.IsNumberTaken | db.py:183-189 | true exactly when some stored digest checks against the number |
| Db.Database.IsSameUser | db.py:190-197 | true exactly when that user's stored digest checks against the number |
| Db.Database.DeleteRows | db.py:62-77 | the loop leaves the kept rows and reports the removed pairs in order |
| Db.Sweep | db.py:62-77 | the loop over the rows leaves exactly the kept rows, in order, and reports the removed ids with their stored text in order |
| Db.Database.RemoveRevokedUsers | db.py:62-77 | as written, every remaining row's bcrypt text is itself in the number set |
| Db.Database.RemoveRevokedUsersChecked | db.py:62-77 | every remaining row's digest checks against an authorised number |
| Db.Database.AddBlock | db.py:145-148 | `INSERT OR REPLACE` sets the user's unblock time |
| Db.Database.RemoveBlock | db.py:150-153 | the user's block is gone, and other blocks stay |
| Db.Database.RemoveExpiredBlocks | db.py:160-164 | only blocks ending after `now` remain |
| Db.Database.ClearBlocks | db.py:166-169 | no block remains and the users stay |
| Documents.LookupFound | handlers/menu.py:98-99 | a key is found exactly when an entry has it, and the entry's value is returned |
| Documents.LookupAt | handlers/menu.py:98-99 | with distinct keys, each entry's key finds that entry's value |
| Documents.NodeAt | handlers/menu.py:95-102 | the node reached by following the path key by key, `None` once a key is missing (its properties are `Documents.NodeAtAppend`, `Documents.NodeAtPrefix`, `Documents.NodeAtMissingExtends`) |
| Documents.NodeAtAppend | handlers/menu.py:95-102 | walking `p + q` is walking `p`, then `q` from there |
| Documents.NodeAtMissingExtends | handlers/menu.py:100-101 | once a path fails, every extension fails |
| Documents.NodeAtPrefix | handlers/menu.py:95-102 | every prefix of a resolving path resolves |
| Documents.GetNodeFromPath | handlers/menu.py:95-102 | the loop returns the node at the path, and the root for the empty path |
| Documents.FlattenSound | handlers/menu.py:67-75 | every flat entry's path extends the prefix and leads to a leaf holding its link, and its category is the path joined with `" > "` |
| Documents.FlattenComplete | handlers/menu.py:67-75 | every leaf of the tree has its flat entry |
| Documents.FlatDataPaths | bot.py:113-116 | every entry of `FLAT_DATA` has a non-empty path leading to its leaf |
| Documents.Flatten | handlers/menu.py:67-75 | one entry per leaf, in the order the objects list their keys (its properties are `Documents.FlattenSound` and `Documents.FlattenComplete`) |
| Documents.FlattenEmptyDict | handlers/menu.py:70-72 | an empty section contributes no entry |
| Documents.VisibleCount | handlers/menu.py:88 | hidden `_` keys are dropped and every other key keeps its count |
| Documents.VisibleKeepsSorted | handlers/menu.py:87-89 | filtering keeps the sorted order |
| Documents.MenuKeysSortedVisible | handlers/menu.py:87-89 | the menu buttons are exactly the visible keys, sorted |
| Documents.MenuLabels | handlers/menu.py:83-93 | the labels top to bottom (its layout is `Documents.MenuLabelsLayout`) |
| Documents.MenuLabelsLayout | handlers/menu.py:83-93 | the root menu starts with search; a submenu ends with back and home before exit; exit is always last |
| Documents.GenerateMenu | handlers/menu.py:83-93 | a keyboard is produced exactly when the node is present (iterating `None` raises) |
| Search.ExpandQuery | handlers/menu.py:104-111 | the loop computes the expansion, which always holds the normalised query |
| Search.Expansion | handlers/menu.py:104-111 | the normalised query together with every synonym class it belongs to |
| Search.QueryInNoClass | handlers/menu.py:104-111 | a word in no synonym class expands to itself alone |
| Search.ClassMemberMatchesOwnClass | handlers/menu.py:57-62 | a table word belongs to exactly one class |
| Search.ClassMemberExpandsToClass | handlers/menu.py:104-111 | a table word expands to its whole class |
| Search.SameClassSameExpansion | handlers/menu.py:104-111 | words of one class expand alike |
| Search.CheckAndDiagnosticsAgree | handlers/menu.py:57-62 | "проверка" and "диагностика" expand alike, and the expansion includes "контроль" |
| Search.TableWordNormalized | handlers/menu.py:57-62 | every table word is already lower-case and stripped |
| Search.NormalizeIdempotent | handlers/menu.py:105 | normalising twice changes nothing, and the expansion ignores case and padding |
| Search.NormalizeTwice | handlers/menu.py:105 | `lower().strip()` applied to its own result changes nothing |
| Search.ResultPath | handlers/menu.py:119-120 | the stored path is the first one or two keys and ends with the result key |
| Search.SearchResultsSound | handlers/menu.py:113-121 | every result comes from a matching entry |
| Search.SearchResultsComplete | handlers/menu.py:113-121 | every matching entry has its key in the results |
| Search.SearchResultsLastWins | handlers/menu.py:119-120 | for a shared key, the last matching entry's path is kept |
| Search.SearchResultsResolve | handlers/menu.py:113-121 | every result path resolves in the tree and ends with its key |
| Search.SearchResults | handlers/menu.py:113-121 | the result dictionary built over the entries in order, later matches overwriting earlier ones |
| Search.FlatDataPathsNonEmpty | bot.py:113-116 | the flattened tree has no empty path, so indexing `путь` cannot fail |
| Search.AnyTermIn | handlers/menu.py:118 | true exactly when some term occurs in the text |
| Search.SearchDocuments | handlers/menu.py:113-121 | the loop computes the results of the expanded query |
| EnvFile.CallbackPieces | handlers/menu.py:655 | the callback data splits into the tag, the user id and the number |
| EnvFile.CallbackRoundTrip | handlers/menu.py:207-209 | the approval parses back the user and the stripped number of the request |
| EnvFile.CallbackData | handlers/menu.py:655 | the text `add_number:<id>:<number>` (its round trip is `EnvFile.CallbackRoundTrip`) |
| EnvFile.ParseCallback | handlers/menu.py:207-209 | a wrong number of `:` pieces is an error; a parsed request holds the integer of the middle piece and a stripped number |
| EnvFile.StripKeepsKey | handlers/menu.py:223-225 | a key line still starts with the key after `strip()` |
| EnvFile.RewriteEnvLines | handlers/menu.py:220-234 | the loop rewrites every key line, keeps the other lines, and appends a key line when none exists, on a line of its own (the corrected append of the finding below) |
| EnvFile.RewrittenLineLists | handlers/menu.py:225-229 | read back, the rewritten line lists the old numbers with the new one appended once, despite the `" ,"` separator |
| EnvFile.ApproveTwice | handlers/menu.py:227-228 | approving a number twice lists it once |
| EnvFile.RewriteLinesEffect | handlers/menu.py:220-234 | other lines are unchanged, every key line lists the number, and a file without a key line gains one listing just the number, after a `"\n"` line when the last line had no line break |
| EnvFile.RewriteEach | handlers/menu.py:220-232 | the loop's lines are the old ones with each key line rewritten, and it reports whether a key line was seen |
| EnvFile.RewriteKeyLine | handlers/menu.py:223-229 | one key line becomes the rewritten line listing the old numbers and the new one |
| EnvFile.RewriteLines | handlers/menu.py:220-237 | the lines written back, with the appended key line on a line of its own (its properties are `EnvFile.RewriteLinesEffect` and `EnvFile.KeyLineAppended`) |
| EnvFile.RewriteLinesAsWritten | handlers/menu.py:220-234 | the lines as the source writes them, the key line appended as it is |
| EnvFile.Concat | handlers/menu.py:236-237 | `writelines`: the file text is the lines one after another with nothing between them |
| EnvFile.KeyLineAppended | handlers/menu.py:231-237 | a file without a key line ends, once written, with its old text, a line break if it lacked one, and the key line, so the written text has a key line |
| EnvFile.UnterminatedLineGlued | handlers/menu.py:231-237 | as written, a one-line file without a final line break gets the key appended to that line, and the written text has no key line (finding) |
| EnvFile.OneLineNoKeyLine | handlers/menu.py:231-237 | a single line that does not start with `A` holds no key line |
| Menu.DropLast | handlers/menu.py:462-463 | `pop()` removes exactly the last key |
| Menu.Back | handlers/menu.py:461-467 | "back" removes exactly the last key of a non-empty path and changes nothing else |
| Menu.Forward | handlers/menu.py:479-553 | a press either changes nothing or appends one key of the current node whose lower case is the text; with the gate closed that key is never "ресеты" |
| Menu.OpenReplies | handlers/menu.py:515-553 | entering a node raises exactly when its `_описание` is a non-empty object, and otherwise sends at least one answer |
| Menu.Navigate | handlers/menu.py:438-553 | a menu message keeps the stored search results unless it clears the chat, and changes the state only to clear it or to enter search |
| Menu.ResetsGateAsWritten | handlers/menu.py:486-488 | the check as written differs from the intended one for every user |
| Menu.FirstMatch | handlers/menu.py:480 | the match is the first key, in order, whose lower case equals the text, and none exists exactly when no key matches |
| Menu.ResetsGate | handlers/menu.py:485-511 | intended: the section opens exactly for admins or subscribers and never raises |
| Menu.VisibleEntries | handlers/menu.py:519 | the submenu keeps exactly the non-`_` entries |
| Menu.BackNeverRaises | handlers/menu.py:461-467 | from a valid path, "back" pops one key (none at the root), answers, and keeps the path valid |
| Menu.NavigateKeepsSessionOk | handlers/menu.py:438-553 | every menu message keeps the session's path and search results valid |
| Menu.ForwardKeepsSessionOk | handlers/menu.py:479-553 | a button press keeps the session valid |
| Menu.ForwardEntersKey | handlers/menu.py:479-482 | a matching button appends the tree's own key, the new path resolves, and the reply describes the node |
| Menu.UnmatchedTextChangesNothing | handlers/menu.py:479-481 | text matching no key leaves the session alone and sends nothing |
| Menu.ResetsPaywallKeepsPath | handlers/menu.py:485-511 | a user who is neither admin nor subscriber gets the paywall and stays where they were |
| Menu.ResetsOpensForSubscribers | handlers/menu.py:485-515 | a subscriber enters "ресеты" |
| Menu.ResetsNeverOpensAsWritten | handlers/menu.py:486-488 | as written, choosing "ресеты" always raises and never moves (finding) |
| Menu.NavigateCommands | handlers/menu.py:444-477 | for text other than a command word: exit clears the session, back pops, home resets the path, the search button enters search |
| Menu.ButtonsAreCommands | handlers/menu.py:452-472 | the keyboard's back, home and exit buttons are recognised as those commands |
| Menu.CapitalisedLabelIgnored | handlers/menu.py:480 | pressing a capitalised button matches nothing, because the key is lowered and the text is not |
| Menu.SelectResult | handlers/menu.py:703-712 | choosing a result moves to its path in the menu state |
| Menu.SelectKeepsSessionOk | handlers/menu.py:698-721 | every selection answers and keeps the session valid |
| Menu.Select | handlers/menu.py:698-721 | a selection keeps the results, either changes nothing or returns to `path`, and raises only for a listed result |
| Menu.SearchStep | handlers/menu.py:676-695 | a query never moves the path, stores only a non-empty result set, and raises exactly when the message has no text |
| Menu.SearchKeepsSessionOk | handlers/menu.py:676-695 | a search stores only result paths that resolve and end with their key |
| Handlers.StillAuthorizedIffListed | handlers/menu.py:168-179 | a stored digest is still authorised exactly when its number is listed |
| Handlers.StillAuthorized | handlers/menu.py:168-179 | the check as intended: some listed number checks against the digest (its meaning is `Handlers.StillAuthorizedIffListed`) |
| Handlers.StillAuthorizedAsWritten | handlers/menu.py:671-674 | the check as written: the digest text is itself listed (see `Handlers.AsWrittenRevokesEveryone`) |
| Handlers.AsWrittenRevokesEveryone | handlers/menu.py:671-674 | as written, no stored user is still authorised while the list holds plain numbers (finding) |
| Handlers.LoginSurvivesStart | handlers/menu.py:413-414 | a user who logged in with a listed number passes the intended check and fails the written one |
| Handlers.ApprovalReadsRequest | handlers/menu.py:655 | the admin's approval reads back the requesting user and number |
| Handlers.MenuRouter.constructor | handlers/menu.py:46-55 | empty counters, sessions and activity; the given database, tree and settings |
| Handlers.MenuRouter.CheckStillAuthorized | handlers/menu.py:168-179 | true exactly when the user is stored and a listed number checks against the digest |
| Handlers.MenuRouter.CmdStart | handlers/menu.py:402-436 | with the intended check of `Handlers.StillAuthorized`: a still-authorised user returns to the menu; a revoked one is deleted and asked for a number; a new user is asked for a number |
| Handlers.MenuRouter.HandleAuthorization | handlers/menu.py:555-669 | no text raises; a command or a block is refused with nothing changed; a listed number logs in and drops the counter; the third failure blocks for `BLOCK_DURATION`; earlier failures send the request |
| Handlers.MenuRouter.Accept | handlers/menu.py:572-585 | the login stores the number's digest, drops the counter and opens the menu |
| Handlers.MenuRouter.EnterMenu | handlers/menu.py:576-582 | the counter is dropped, the chat enters `path` keeping its data, and the welcome comes with the root menu |
| Handlers.MenuRouter.CountFailure | handlers/menu.py:600-667 | counts the attempt, blocking at three and otherwise sending `add_number:<id>:<number>` |
| Handlers.MenuRouter.HandleAddNumber | handlers/menu.py:204-258 | bad data fails; a missing `.env` is reported; otherwise the file is rewritten and the number joins the set |
| Handlers.MenuRouter.NavigateMenu | handlers/menu.py:438-553 | the session and reply follow the menu transition, with the intended "ресеты" gate |
| Handlers.MenuRouter.Dispatch | handlers/menu.py:438-553 | the branches on the text give exactly the menu transition: not text, command word, exit, back, home, search, button |
| Handlers.MenuRouter.GoBack | handlers/menu.py:461-467 | the back branch, looking the node up by walking the path |
| Handlers.MenuRouter.GoForward | handlers/menu.py:479-553 | the button branch, looking the node up by walking the path |
| Handlers.MenuRouter.StartSearch | handlers/menu.py:336-340 | behind the login gate, switches to the search state |
| Handlers.MenuRouter.ResetAuth | handlers/menu.py:343-351 | behind the login gate, deletes the user and asks for a number |
| Handlers.MenuRouter.HandleSearch | handlers/menu.py:676-695 | the session and reply follow the search transition over `FLAT_DATA` |
| Handlers.MenuRouter.HandleSearchSelection | handlers/menu.py:698-721 | the session and reply follow the selection transition, which never raises |
| Handlers.MenuRouter.AutoLogoutPass | handlers/menu.py:732-739 | one pass removes the activity entry and the block of exactly the stored users idle for over 600 seconds; nothing else changes |
| Handlers.MenuRouter.LogoutIfStale | handlers/menu.py:736-739 | one entry is dropped, with its block, when it is idle and stored |
| Handlers.ThreeWrongNumbers | handlers/menu.py:600-637 | three unlisted numbers: two requests, then a block until `now + BLOCK_DURATION`, and the counter is gone |
| Handlers.RequestApproveLogin | handlers/menu.py:204-669 | with the intended check of `Handlers.StillAuthorized`: request, approval and the same number again: the number is added, the user logs in and the next /start welcomes them back |
| Handlers.LoginNumberOf | db.py:119-127 | after a login, the stored digest is the one just made |

## Left out

- Telegram transport: message wording, HTML escaping, photos, inline keyboards and layout are left out. Replies are a notice tag and the button labels.
- Deleting the previous 99 messages in `cmd_start` and `delete_previous_message`: only chat housekeeping, and failures are swallowed.
- `admin_only`, `handle_admin_violation`, `/help`, `/admin`, `/log`, `/violations`, `/clear_log`, `handle_deny_number` and the log helpers: log-file I/O that changes no state of the model.
- `handlers/admin.py`, `admin_tool.py` and `middlewares/auth.py` are not part of this model. `auth_required` appears only as the login gate in `StartSearch` and `ResetAuth`.
- SQLite, `init_db` and its migrations, `export_users_to_excel`, `get_last_users` and `get_user_role`: the database is a sequence of rows and a map of blocks, with no schema and no file.
- bcrypt: salts and digests are abstract. A digest checks only against its own number, and its text starts with `$2b$`.
- The `.env` file and `load_dotenv`: the environment is a map and the file is a sequence of lines.
- Reading `DATA_JSON` from disk: the tree is a parameter. Leaves are strings, so `str()` of a number leaf is not modelled.
- Clocks are integer seconds. `datetime.now()`, `time.time()` floats and the sleep of `auto_logout_checker` are left out, so `Handlers.MenuRouter.AutoLogoutPass` is one pass of the endless loop.
- `LAST_ACTIVE` is written nowhere in the source. The model keeps it as a map that only the logout pass changes.
- `lower()` folds only ASCII and basic Cyrillic letters. `strip()` removes exactly the characters of Python's `str.isspace()`.
- aiogram dispatching: the state filters decide which handler runs, and the model calls the handler directly.
- Search result buttons: `Search.SearchDocuments` returns a map, and the keyboard is modelled as its key set without the `sorted` order.
- The branch at handlers/menu.py:586-597 is left out: nothing in it can raise `ValueError`.
- Numbers.ParseInt: reads only ASCII digits. Python's `int()` also accepts other Unicode decimal digits, so `ADMINS="١٢"` gives the id 12 in the program and a `BadAdminId` in the model.
- The `float` cast of `get_env` (the `cast(value)` call at utils.py:42) is not modelled: no modelled caller passes it.
- EnvFile.RewriteLinesEffect: states the lines written, not the file text. The text is `EnvFile.Concat` of them, and `EnvFile.KeyLineAppended` states that text. The model writes the corrected lines of the finding on handlers/menu.py:231-237.
- FloodControl.BurstScenario: states one fixed burst from a single user, not every interleaving.
- Menu.ResetsOpensForSubscribers: states only the new path, not the replies, which are those of `Menu.ForwardEntersKey`.
- Menu.SearchKeepsSessionOk: states that result paths resolve; it says nothing about which documents were found, which `Search.SearchResultsSound` and `Search.SearchResultsComplete` cover.
- Handlers.MenuRouter.HandleAddNumber: writing the file and notifying the user are left to the caller, who gets the new lines.

## Findings

| source | as written | input that shows it | evidently intended | confidence | as-written member | corrected member |
|---|---|---|---|---|---|---|
| handlers/menu.py:671-674 | the later `check_still_authorized` replaces the first one and compares the stored bcrypt text with plain numbers | any stored user sends /start while `AUTHORIZED_NUMBERS` holds plain numbers: the row is deleted as revoked | check the digest with `bcrypt.checkpw`, as the first definition at lines 168-179 does | high, not executed | Handlers.AsWrittenRevokesEveryone | Handlers.MenuRouter.CheckStillAuthorized |
| db.py:62-77 | `remove_revoked_users` tests `number not in authorized_numbers` on the stored bcrypt text | any non-empty user table with plain numbers listed: every row is removed | keep the rows whose digest checks against a listed number | high, not executed | Db.TextSweepKeepsNothing | Db.HashSweepKeepsAuthorized |
| handlers/menu.py:486-488 | `from db import is_subscribed` names a function `db.py` does not define | any user, admin or not, presses "ресеты": the import raises and the section never opens | open for admins and subscribed users, paywall for the rest | high, not executed | Menu.ResetsNeverOpensAsWritten | Menu.ResetsOpensForSubscribers |
| handlers/menu.py:231-237 | `handle_add_number` appends `AUTHORIZED_NUMBERS=<number>\n` to the lines read and writes them with `writelines`, adding no line break | a `.env` holding only `BOT_TOKEN=5x` with no final line break, number `7`: the file becomes `BOT_TOKEN=5xAUTHORIZED_NUMBERS=7\n`, the token is corrupted and no number is listed | put the key line on a line of its own | medium, not executed | EnvFile.UnterminatedLineGlued | EnvFile.KeyLineAppended |

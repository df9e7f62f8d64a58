# bean-telegram in Dafny

A model of the core of bean-telegram, a Telegram bot that records expenses in a
beancount ledger. A user sends a message such as `2.99 Supermarket #vacation
[Groceries]`, with the account last. The code's docstring shows the account before the
tag, and "## Findings" says why that does not work. The bot reads the amount, the
narration, the tags and an optional expense account, and lets the user pick a missing
account from a menu that goes one colon-separated level at a time (`Food`, then `Food:Groceries`). It remembers the account
used with each narration, and it writes the transaction to the user's ledger file between
a pull and a push of the synchroniser.

One Dafny module per source file:

| module | file | models |
|---|---|---|
| `Config` | `config.py` | the environment settings and `check()` |
| `Bot` | `bot.py` | `parse_amount` (the amount pattern and its value) and the token scan of the `tx` handler |
| `Beans` | `beans.py` | `Transaction.__str__` (validation, marker tag, account qualification, entry text), `get_expense_accounts`, the guards of `append_tx` |
| `Storage` | `bot/storage.py` | the conversation states of a chat and the remembered narration accounts |
| `Handlers` | `bot/handlers.py` | the account menu, its buttons and callback data, the routing of a message, the two callbacks, the commit, the settings check, `/withdraw`, the success text |

`Text` and `Sorting` hold the Python built-ins these files rely on:
- `str.split`, `str.join`, `str.replace`, `str.find` and `int()`;
- `sorted` on strings, and `sorted(list(set(...)))`.

`Wrappers` holds `Option` and `Result`.

Pure code is written as functions and lemmas. Code that changes things in place is imperative:
- A `Transaction` is a class because rendering it changes its tags and its expense account.
- The chat and user data is a `Context` class with `states`, `narrations` and `opts` fields.
- A `ConversationState` is a class whose path and options the account callback changes on the stored object.
- The token scan and the button builder are loops, proved against specification functions.

Things outside these files are inputs:
- what the beancount loader returns: the entries, whether it reported errors, and the expenses root;
- today's date and the environment;
- the message parser and the ledger append that the handlers call.

The handlers call a newer ledger interface than the one `beans.py` shows: `parse_tx`, `parse_amount`, `format_amount`, `debit_account`/`credit_account`, and an `append_tx` that returns balances. Its results are parameters, except `beans.parse_amount`, for which the model uses `Bot.ParseAmount`. The debit account is the transaction's expense account and the credit account is its asset account. The calls to the synchroniser and the ledger are returned as a list of events.

Some behaviour of the code is easy to miss, and the model keeps it:
- `parse_amount` returns 0 for text it cannot read; it does not raise an error.
- `__str__` appends `#bot` on every call that passes validation, including one that then returns `""` because the ledger has errors.
- The currency is always `EUR`.

In two places the model uses the corrected form of a computation that "## Findings" shows to be wrong. "## Left out" names each such member.

## Model

| member | source | states |
|---|---|---|
| `Config.DbDir` | config.py:10 | the `DB_DIR` setting when it is set and non-empty, otherwise `/var/lib/beanbot`; never empty |
| `Config.Verbose` | config.py:11 | on exactly when `LOG_VERBOSE` is `True`, `true` or `1` |
| `Config.LogLvl` | config.py:12 | debug level exactly when verbose, info otherwise |
| `Config.Check` | config.py:15-30 | no error exactly when all four required settings are set and non-empty; otherwise the error for the first unset one, in the order currency, main file, path, token |
| `Config.ErrorTextNamesSetting` | config.py:19-28 | different settings give different error texts, so the error identifies the missing setting |
| `Bot.MatchAmount` | bot.py:17 | the two groups of the amount pattern, or none; `MatchAmountSound` and `MatchAmountComplete` tie it to the pattern's syntax |
| `Bot.Anchored` | bot.py:17 | what `$` lets the pattern cover: an input that ends in a newline without that newline, any other input whole |
| `Bot.DigitPrefix` | bot.py:17 | greedy `\d+`: a run of leading digits followed by a non-digit or the end |
| `Bot.DigitPrefixIs` | bot.py:17 | that run is the only one with this property |
| `Bot.MatchAmountSound` | bot.py:17 | every match the model finds is a whole-digits, optional separator, at-most-two-decimals text, with the groups the regex gives |
| `Bot.MatchAmountComplete` | bot.py:17 | every text of that form is matched; without a separator, all digits go to the first group, as backtracking gives them |
| `Bot.CentsValue` | bot.py:89-92 | below 100; a single decimal counts as tens (`5` is 50) |
| `Bot.ParseAmount` | bot.py:86-96 | 0 when the pattern does not match |
| `Bot.ParseAmountOfSyntax` | bot.py:86-94 | the value for every form: whole digits × 100, plus the cents after a separator |
| `Bot.ParseAmountOfMatch` | bot.py:86-94 | a match's value is whole × 100 + cents, and dividing by 100 gives back the two parts |
| `Bot.ParseAmountRejects` | bot.py:95-96 | 0 for every text outside the pattern |
| `Bot.ParseAmountDocstringExamples` | bot.py:43-45 | the docstring's amounts: `1.23` is 123, `10` is 1000 and `14.99` is 1499 |
| `Bot.ParseAmountWholeExamples` | bot.py:86-96 | `12` is 1200 and `125` is 12500 |
| `Bot.ParseAmountDecimalExamples` | bot.py:86-96 | `1.5` and `1,5` are both 150 |
| `Bot.ParseAmountTwoDecimalsExample` | bot.py:105 | the help text's `25,93` is 2593 |
| `Bot.ParseAmountRejectExamples` | bot.py:95-96 | the empty text, `abc`, `1.555` and `.5` are 0 |
| `Bot.ParseAmountFinalNewline` | bot.py:17 | a token followed by one final newline reads as the token itself, because `$` lets that newline through |
| `Bot.ParseAmountNewlineExample` | bot.py:17 | `12` followed by a newline (the first token of `12\n Lunch`) is 1200 |
| `Bot.BracketAccountFinalNewline` | bot.py:68 | a bracketed token followed by one final newline gives the same account as the token itself |
| `Bot.DocstringAccountBeforeTag` | bot.py:46 | the docstring's `2.99 Supermarket [Groceries] #vacation` splits into four tokens; the last, `#vacation`, is no bracketed account, and the tag run is that one token, so `[Groceries]` stays in the narrative |
| `Bot.DocstringAccountLast` | bot.py:66-76 | with the account last, the same message gives the account `Groceries`, one tag and a narrative of one word |
| `Bot.HelpExampleUnreadable` | bot.py:104 | the help text's `.5 Metro #trip2019` has `.5` as its amount token, which reads as 0, so the message is answered as unreadable |
| `Bot.HelpExampleWithZero` | bot.py:86-96 | written `0.5 Metro #trip2019`, the message is 50 cents, no account, one tag and a narrative of one word |
| `Bot.TrailingTags` | bot.py:71-76 | the length of the run of `#` tokens at the end: all of them tags, and the token before them not a tag |
| `Bot.ScanTags` | bot.py:71-76 | the loop splits the tokens into narrative followed by tags, in order; the tags are exactly the trailing run |
| `Bot.BracketAccount` | bot.py:68-69 | a recognised account is non-empty, has no newline, and is the bracketed text of the token |
| `Bot.BracketAccountRoundTrip` | bot.py:68-69 | every non-empty account name without a newline is recognised in brackets and given back unchanged |
| `Bot.ParseMessage` | bot.py:47-76 | help exactly when there are fewer than two tokens; an unreadable amount exactly when the first token parses to 0; otherwise the amount, the bracketed account taken from the last token, and the other tokens split into narrative and trailing tags |
| `Beans.TwoDigits` | beans.py:52 | two digits that read back as the number (`%m`, `%d`) |
| `Beans.DateText` | beans.py:52 | `%Y-%m-%d`: ten characters with no line break; four digits that read as the year, a dash, two digits that read as the month, a dash, two digits that read as the day |
| `Beans.FourDigitYear` | beans.py:52 | a year from 1000 to 9999 has four digits |
| `Beans.Validation` | beans.py:25-34 | no error exactly when narration, expense and asset accounts are non-empty and the amount is positive; otherwise the message of the first failing check, in the source's order |
| `Beans.NumberTextAsWritten` | beans.py:40 | the amount as `{0}.{1}` writes it; it reads back as the amount when the cents are zero or have two digits |
| `Beans.AmountTextAsWritten` | beans.py:40 | `-`, that number, a space and `EUR` |
| `Beans.AmountTextAsWrittenMisreads` | beans.py:40 | the amount text as written reads back as ten times the cents when the cents are 1 to 9 |
| `Beans.AmountTextRoundTrip` | beans.py:40 | the corrected amount text reads back as the same number of cents |
| `Beans.Qualify` | beans.py:46-49 | the result starts with the root; an account that starts with the root is kept, otherwise the root and a colon are put in front |
| `Beans.QualifyIdempotent` | beans.py:46-49 | qualifying twice is qualifying once |
| `Beans.EntryText` | beans.py:51-55 | the entry starts with a newline and the date, and ends with the expense account |
| `Beans.EntryLines` | beans.py:51-55 | the entry is an empty line, then the header, the asset posting with the amount, and the expense posting, when no field has a line break |
| `Beans.JoinAvoids` | beans.py:37 | the space-joined tags contain no character that none of the tags contains |
| `Beans.Transaction.Render` | beans.py:24-55 | a validation failure raises its message and changes nothing; otherwise `#bot` is appended; a ledger with errors gives `""`; else the expense account is qualified and the entry text is returned |
| `Beans.RenderTwice` | beans.py:36-49 | two renderings append `#bot` twice but qualify the account only once |
| `Beans.Stripped` | beans.py:70-76 | a name is listed exactly when `root:` followed by that name is an opened account |
| `Beans.StrippedAsWritten` | beans.py:70-76 | a name is listed exactly when some opened account starts with `root:` and its `split(root + ":")[1]` is that name |
| `Beans.ExpenseAccountsAsWritten` | beans.py:58-77 | `None` exactly when the ledger has errors; otherwise sorted, and a name is listed exactly when it is the `split(root + ":")[1]` of an opened account that starts with `root:`, and as often as `StrippedAsWritten` gives it (a permutation of that list) |
| `Beans.ExpenseAccounts` | beans.py:58-77 | `None` exactly when the ledger has errors; otherwise sorted, the same names as often as `Stripped` gives them, and a name is listed exactly when `root:name` is opened |
| `Beans.ExpenseAccountsAsWrittenCutsShort` | beans.py:73 | an account whose name has `root:` a second time is listed cut short at it |
| `Beans.ExpenseAccountsKeepsWholeName` | beans.py:73 | the corrected list keeps the whole name and does not list the cut one |
| `Beans.OneAccount` | beans.py:70-77 | both lists for a ledger with a single expense account |
| `Beans.AppendTx` | beans.py:80-91 | an empty entry, then a missing file name, then a missing file are refused with their errors; otherwise the text handed to the re-alignment is the old contents followed by the entry |
| `Storage.Key` | bot/storage.py:27 | a state is stored under its id written in decimal |
| `Storage.KeyInjective` | bot/storage.py:27 | different ids give different keys |
| `Storage.Context.GetState` | bot/storage.py:30-35 | the state under the key, `None` without a map or without the key |
| `Storage.Context.SaveState` | bot/storage.py:21-27 | the map is created if missing; the state is stored under its key; every other key is unchanged; keys keep matching their states |
| `Storage.Context.PopState` | bot/storage.py:38-45 | returns what was stored and removes it; other keys are unchanged; nothing changes when the key is absent |
| `Storage.Context.DeleteState` | bot/storage.py:48-54 | the key is gone afterwards; other keys are unchanged; nothing changes when it was absent |
| `Storage.Context.GetNarrationAccount` | bot/storage.py:57-62 | `""` before any narration was saved; the saved account for a known narration; `None` for an unknown one |
| `Storage.Context.SaveNarrationAccount` | bot/storage.py:65-71 | the map is created if missing; the narration now gives the account; other narrations keep theirs |
| `Storage.SaveNarrationTwice` | bot/storage.py:65-71 | the second save wins, and the conversation states are not touched |
| `Handlers.UnderPath` | bot/handlers.py:504 | exactly the accounts that start with the path |
| `Handlers.SecondFields` | bot/handlers.py:507 | fails exactly when one of the accounts lacks `path:`; otherwise the second field of each |
| `Handlers.OptionsForPathAsWritten` | bot/handlers.py:496-511 | fails exactly when an account starts with the path but lacks `path:`; otherwise strictly sorted, and an entry is offered exactly when it is the first segment of an account at the root, or of the `split(path + ":")[1]` of an account that starts with the path |
| `Handlers.Below` | bot/handlers.py:504-507 | at the root all accounts; below it, exactly what follows `path:` in the accounts that have it |
| `Handlers.OptionsForPath` | bot/handlers.py:496-511 | strictly sorted, colon-free, and an entry is offered exactly when it is the next level of an account below the path |
| `Handlers.OptionsAtRootAgree` | bot/handlers.py:500-511 | at the root the source's menu and the corrected one are equal |
| `Handlers.OptionsAsWrittenFailsOnSibling` | bot/handlers.py:504-507 | a sibling that starts with the path's text (`FoodDrinks` under `Food`) makes the source's menu fail |
| `Handlers.OptionsIgnoreSibling` | bot/handlers.py:504-509 | the corrected menu offers only the path's own child there |
| `Handlers.OptionsAsWrittenCutsShort` | bot/handlers.py:507-509 | a child holding `path:` again is cut short by the source's menu |
| `Handlers.OptionsKeepWholeName` | bot/handlers.py:507-509 | the corrected menu offers the whole next level there |
| `Handlers.OptionLeadsToAccount` | bot/handlers.py:381-385 | every entry of the menu, once chosen, gives an account or a prefix of one ending before a colon |
| `Handlers.AccountReachable` | bot/handlers.py:496-511 | every account below the path is reached through some entry |
| `Handlers.PathBack` | bot/handlers.py:379 | the root for a path without a colon; otherwise the part before the last colon |
| `Handlers.BackAfterChoose` | bot/handlers.py:379-384 | going back after choosing an entry returns to the path it was chosen at |
| `Handlers.Index` | bot/handlers.py:384 | an index exactly when `int()` reads a number from `-len` to `len - 1`; a number from 0 up is that index, and a negative number `-k` is the `k`-th entry from the end |
| `Handlers.IndexOfButton` | bot/handlers.py:384 | the index written in a button names the entry the button was made for |
| `Handlers.Transition` | bot/handlers.py:377-384 | the step goes through exactly for `back` or a readable index; `back` gives the parent path; otherwise the colon is added to a non-root path even when the step then fails, a step that goes through gives the chosen entry's path, and Back from it returns to the old path; a step that fails leaves exactly the old path with a colon added (the root stays empty) |
| `Handlers.ChooseThenBack` | bot/handlers.py:377-384 | pressing a button goes one level down, and Back then returns to the same path |
| `Handlers.Buttons` | bot/handlers.py:514-538 | Back first exactly when the path is not the root, then one button per entry, in order, with its caption and `accounts:<id>:<index>` data |
| `Handlers.ButtonsExtend` | bot/handlers.py:529-537 | one more entry adds its button at the end |
| `Handlers.GetBtns` | bot/handlers.py:514-538 | the loop builds exactly those buttons |
| `Handlers.CallbackRoundTrip` | bot/handlers.py:370-384 | a button's data splits into `accounts`, the state's storage key and the index, and the index names the button's entry |
| `Handlers.AccountsDataSplits` | bot/handlers.py:370 | `accounts:<id>:<choice>` splits into its three fields for any choice without a colon, `back` included |
| `Handlers.ConfirmDataSplits` | bot/handlers.py:353-354 | `confirm:<id>` splits into `confirm` and the storage key |
| `Handlers.FormatSuccess` | bot/handlers.py:476-493 | the text starts with the operation and the amount on their own line and ends with a newline |
| `Handlers.FormatSuccessLines` | bot/handlers.py:476-493 | the success text has the operation line, the cash balance line and, only when one is given, the bank balance line, each ended by a newline |
| `Handlers.SubstituteDate` | bot/handlers.py:220-221 | no `%Y` and no `%M` is left in the file path; a path without them is unchanged |
| `Handlers.SubstitutePlain` | bot/handlers.py:220-221 | a path without `%` is used as it is |
| `Handlers.SubstituteYear` | bot/handlers.py:220-221 | each `%Y` becomes the four-digit current year, and the rest of the path is rewritten in the same way |
| `Handlers.SubstituteMonth` | bot/handlers.py:220-221 | each `%M` becomes the two-digit current month, and the rest of the path is rewritten in the same way |
| `Handlers.SubstituteDateIdempotent` | bot/handlers.py:220-222 | rewriting an already rewritten path changes nothing |
| `Handlers.HandleCheckConfig` | bot/handlers.py:208-232 | stops without a file and leaves the settings alone; otherwise rewrites the file's date directives, then stops without an account, then without a withdrawal account |
| `Handlers.Credit` | bot/handlers.py:465-466 | the transaction's own asset account, or the user's account when it has none; a missing setting is an error |
| `Handlers.AssetAfter` | bot/handlers.py:465-466 | the asset account a commit leaves: the transaction's own, else the user's account, else unchanged |
| `Handlers.CommitResult` | bot/handlers.py:463-469 | a `KeyError` exactly when the file setting is missing, or the transaction has no asset account and there is no account setting; otherwise what the append returned |
| `Handlers.CommitEffects` | bot/handlers.py:463-470 | a pull always comes first; the append comes only once the credit account and file are known; the push comes only after a successful append |
| `Handlers.CommitTx` | bot/handlers.py:452-473 | makes exactly those calls, returns the append's result or the `KeyError`, changes the asset account as `AssetAfter` says and nothing else of the transaction, and remembers the narration's account only after success |
| `Handlers.HandleMessage` | bot/handlers.py:274-361 | unparsable text is not understood; a named account is committed if it is known and refused if not; otherwise a remembered account is committed at once after `!` or asked about, and without one a fresh state with the root menu is stored under the message id; a ledger error is an internal error; in every branch, the new narrations map and the transaction's accounts are given, and its narration, amount and tags are unchanged |
| `Handlers.HandleAccountCallback` | bot/handlers.py:364-413 | missing data or state fails and changes nothing; the stored state's path moves as `Transition` says, even when the step then fails; a path that is an account is committed and the state deleted under the choice; otherwise the state gets the menu for its new path; only the named state and its transaction may change, and the narrations map is given in every branch |
| `Handlers.HandleConfirmCallback` | bot/handlers.py:416-449 | data without a key raises; a missing state fails; otherwise the state is deleted and its transaction committed with the account it holds; only that transaction's asset account changes, and the narrations map is updated only after success |
| `Handlers.HandleWithdraw` | bot/handlers.py:235-271 | usage unless there is exactly one argument; refused unless the amount is positive; a missing setting raises; otherwise a `Withdrawal` from the withdrawal account to the user's account is committed; the narrations map changes only after a successful commit |

## Left out

- Unicode digits: Python's `\d` and `int()` accept every Unicode decimal digit. The model accepts only `0`–`9`.
- `int()` also accepts surrounding whitespace and `_` between digits. `Handlers.Index` does not model these forms.
- `align_beancount` and file I/O: `Beans.AppendTx` gives the contents before re-alignment, and the file's presence is an input.
- The beancount loader is not modelled: its entries, error flag and `name_expenses` option are a `Ledger` value.
- `date.today()` and `uuid.uuid4()` are parameters.
- `int(self.amount / 100)` in `beans.py` divides floats. The model divides integers, which gives the same result for amounts below 2^53 cents.
- The synchroniser's pull and push are events in a list. Their own failures are not modelled.
- Telegram is not modelled: the texts of the replies, message edits and keyboards. A handler's answer is an `Outcome`, and buttons are caption and data pairs.
- The admin handlers of `bot/handlers.py` (user setup and the settings display), `bot/run.py`, `main.py`, `sync.py` and `log.py` are not part of this model.
- `parse_tx`, `format_amount`, the newer `append_tx` that returns balances, and `beans.Error` are not in `beans.py`. What they return is a parameter of the handlers: a parsed transaction or none, a catalog of expense accounts or none, and a balance or a fault.
- The catalog of expense accounts is one snapshot per handler call. The source loads it again for each `_get_options_for_path`.
- `Handlers.HandleMessage`: `_format_success` is called with the balance and nothing else is rendered. The outcome carries the balances, not the text.
- `Handlers.HandleAccountCallback`: the `except` clause always raises again after replying, because it calls the message's `reply_markup` attribute, which is not a method. The model reports `Failed` and does not model that second exception.
- `Handlers.HandleAccountCallback` offers the corrected menu (`OptionsForPath`), not the source's (`OptionsForPathAsWritten`). Where they differ, the source fails with `IndexError` (a sibling such as `FoodDrinks` under `Food`) or offers a cut name (`Pet` for `Food:PetFood:Dry`); see "## Findings". At the root they agree (`OptionsAtRootAgree`), so `Handlers.HandleMessage` is not affected.
- `Beans.Transaction.Render` writes the amount with two-digit cents (`AmountText`, `-1.05 EUR` for 105), not the source's `-1.5 EUR` (`AmountTextAsWritten`); see "## Findings".
- `Handlers.HandleWithdraw` reads the amount with `Bot.ParseAmount`. The handler calls `beans.parse_amount`, which `beans.py` does not define, so the model assumes it behaves like the parser in `bot.py`.
- `Handlers.HandleAccountCallback`, `Handlers.HandleConfirmCallback` and `Handlers.HandleWithdraw`: every exception caught by `except Exception` is the single outcome `Failed`, whatever its type.
- `Handlers.HandleAccountCallback` deletes the state under the choice (`data[2]`) rather than under its key, as written. This is stated in its contract and not corrected.
- `Beans.Qualify` tests `startswith(root)` without the colon, as written, so `ExpensesX` counts as qualified.
- `print_help` and the reply texts of `bot.py` are not modelled: `Bot.ParseMessage` returns which reply is sent.
- Logging is left out.

## Findings

| source | as written | input that shows it | evidently intended | confidence | as-written member | corrected member |
|---|---|---|---|---|---|---|
| bot.py:104 | the help text offers `.5 Metro #trip2019` as a valid message, but the amount pattern at bot.py:17 wants a digit before the separator | `.5 Metro #trip2019`: the amount reads as 0 and the bot answers that it cannot parse the amount | a help example the parser accepts, such as `0.5 Metro #trip2019` | high; not executed | `Bot.HelpExampleUnreadable` | `Bot.HelpExampleWithZero` |
| bot.py:46 | the docstring's example puts the account before a tag, but bot.py:68 looks for the account only in the last token | `2.99 Supermarket [Groceries] #vacation`: no account, and `[Groceries]` is kept as narrative | the account last, `2.99 Supermarket #vacation [Groceries]` | high; not executed | `Bot.DocstringAccountBeforeTag` | `Bot.DocstringAccountLast` |
| beans.py:40 | the cents are formatted with `{1}`, so amounts with 1 to 9 cents lose their leading zero | amount 105 is written `-1.5 EUR`, which is 150 cents | two-digit cents, `-1.05 EUR` | high; not executed | `Beans.AmountTextAsWrittenMisreads` | `Beans.AmountTextRoundTrip` |
| bot/handlers.py:504-507 | the filter is `startswith(path)` but the strip is `split(path + ":")[1]`, so a sibling name that only starts with the path's text has no second field | accounts `Food:Groceries` and `FoodDrinks`, path `Food`: `IndexError`, and the menu shows an error | filter on `path + ":"`, offering `Groceries` | high; not executed | `Handlers.OptionsAsWrittenFailsOnSibling` | `Handlers.OptionsIgnoreSibling` |
| bot/handlers.py:507-509 | `split(path + ":")[1]` stops at a second occurrence of `path:` inside the name | account `Food:PetFood:Dry`, path `Food`: offers `Pet`, which leads to no account | strip only the leading `path:`, offering `PetFood` | medium; not executed | `Handlers.OptionsAsWrittenCutsShort` | `Handlers.OptionsKeepWholeName` |
| beans.py:73 | `e.account.split(prefix)[1]` stops at a second occurrence of the prefix inside the name | account `Expenses:Food:PetExpenses:Dry`: listed as `Food:Pet` | strip only the leading prefix, listing `Food:PetExpenses:Dry` | medium; not executed | `Beans.ExpenseAccountsAsWrittenCutsShort` | `Beans.ExpenseAccountsKeepsWholeName` |

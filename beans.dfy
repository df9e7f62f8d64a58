/** The ledger side of the bot: the pending transaction and how it is written as a
    beancount entry, the list of expense accounts offered to the user, and the guard of
    the append to a ledger file. What the beancount loader returns is an input here: the
    entries of the ledger, whether loading reported errors, and the name of the expenses
    root (`name_expenses`, usually `Expenses`). */
module Beans {
  import opened Wrappers
  import opened Text
  import opened Sorting
  import Bot

  /** The entries of a ledger that matter here: account openings, and everything else. */
  datatype Entry = Open(account: string) | OtherEntry

  /** What `loader.load_file` yields for the configured ledger. */
  datatype Ledger = Ledger(entries: seq<Entry>, hasErrors: bool, nameExpenses: string)

  /** The exceptions of this file: `ValueError` with its message, and a ledger file that
      cannot be opened. */
  datatype Error = ValueError(message: string) | FileNotFound

  datatype Date = Date(year: nat, month: nat, day: nat)
  {
    /** The dates `date.today()` can give that `%Y` writes with four digits. */
    predicate Valid() { 1000 <= year <= 9999 && 1 <= month <= 12 && 1 <= day <= 31 }
  }

  /** A number below 100 written with two digits, as `%m` and `%d` write months and days. */
  function TwoDigits(n: nat): (s: string)
    requires n < 100
    ensures |s| == 2 && AllDigits(s) && DigitsValue(s) == n
  {
    var s := [DigitChar(n / 10), DigitChar(n % 10)];
    assert s[..1] == [DigitChar(n / 10)] && s[..1][..0] == [];
    assert DigitsValue(s[..1]) == n / 10;
    s
  }

  /** `f"{d:%Y-%m-%d}"` */
  function DateText(d: Date): (s: string)
    requires d.Valid()
    ensures |s| == 10 && '\n' !in s && s[4] == '-' && s[7] == '-'
    ensures AllDigits(s[..4]) && DigitsValue(s[..4]) == d.year
    ensures AllDigits(s[5..7]) && DigitsValue(s[5..7]) == d.month
    ensures AllDigits(s[8..]) && DigitsValue(s[8..]) == d.day
  {
    FourDigitYear(d.year);
    NatToStringRoundTrip(d.year);
    var year, month, day := NatToString(d.year), TwoDigits(d.month), TwoDigits(d.day);
    var s := year + "-" + month + "-" + day;
    assert s[..4] == year && s[5..7] == month && s[8..] == day;
    s
  }

  /** A year from 1000 to 9999 is written with four digits. */
  lemma FourDigitYear(n: nat)
    requires 1000 <= n <= 9999
    ensures |NatToString(n)| == 4
  {
    assert n / 10 / 10 == n / 100 && n / 100 / 10 == n / 1000;
    assert |NatToString(n / 1000)| == 1;
    assert |NatToString(n / 100)| == 2;
    assert |NatToString(n / 10)| == 3;
  }

  // ----- Validation and the amount text -----------------------------------------------

  /** The checks `__str__` makes before writing anything, in their order: the message of
      the first that fails, or `None` when the transaction may be written. */
  function Validation(narration: string, expense: string, asset: string, amount: int): (err: Option<string>)
    ensures err.None? <==> narration != "" && expense != "" && asset != "" && amount > 0
    ensures narration == "" ==> err == Some("Narration cannot be empty")
    ensures narration != "" && expense == "" ==> err == Some("Expense account cannot be empty")
    ensures narration != "" && expense != "" && asset == "" ==> err == Some("Asset account cannot be empty")
    ensures narration != "" && expense != "" && asset != "" && amount <= 0 ==>
      err == Some(if amount == 0 then "Amount cannot be 0." else "Amount cannot be negative")
  {
    if narration == "" then Some("Narration cannot be empty")
    else if expense == "" then Some("Expense account cannot be empty")
    else if asset == "" then Some("Asset account cannot be empty")
    else if amount == 0 then Some("Amount cannot be 0.")
    else if amount < 0 then Some("Amount cannot be negative")
    else None
  }

  /** The currency every posting is written in. */
  const Currency: string := "EUR"

  /** The amount as the source writes it, `"-{0}.{1} EUR"` with `amount / 100` and
      `amount % 100`: the cents are written without a leading zero. */
  function AmountTextAsWritten(amount: nat): string
  {
    "-" + NumberTextAsWritten(amount) + " " + Currency
  }

  /** The number part of that text. It reads back as the amount exactly when the cents are
      zero or have two digits of their own. */
  function NumberTextAsWritten(amount: nat): (text: string)
    ensures amount % 100 == 0 || amount % 100 >= 10 ==> Bot.ParseAmount(text) == amount
  {
    var w, c := NatToString(amount / 100), NatToString(amount % 100);
    assert amount % 100 == 0 || amount % 100 >= 10 ==> Bot.ParseAmount(w + "." + c) == amount by {
      if amount % 100 == 0 || amount % 100 >= 10 {
        CentsDigits(amount % 100);
        AnchoredNumber(w, c);
        Bot.ParseAmountOfSyntax(w + "." + c, w, ".", c);
        NatToStringRoundTrip(amount / 100);
      }
    }
    w + "." + c
  }

  /** The decimal text of a cents value, and what the amount pattern makes of it: `0` is
      zero cents, and two digits are the value itself. */
  lemma CentsDigits(c: nat)
    requires c == 0 || 10 <= c < 100
    ensures var t := NatToString(c); (c == 0 ==> t == "0") && (c != 0 ==> |t| == 2)
    ensures Bot.CentsValue(NatToString(c)) == c
  {
    NatToStringRoundTrip(c);
    var t := NatToString(c);
    if c != 0 {
      assert t == NatToString(c / 10) + [DigitChar(c % 10)];
      assert NatToString(c / 10) == [DigitChar(c / 10)];
    }
  }

  /** Cents below ten are written as one digit, which reads back as ten times as many:
      105 cents become `-1.5 EUR`, which is 150 cents. */
  lemma AmountTextAsWrittenMisreads(amount: nat)
    requires 1 <= amount % 100 <= 9
    ensures Bot.ParseAmount(NumberTextAsWritten(amount)) == (amount / 100) * 100 + 10 * (amount % 100)
    ensures Bot.ParseAmount(NumberTextAsWritten(amount)) != amount
  {
    var w, c := NatToString(amount / 100), NatToString(amount % 100);
    assert |c| == 1;
    AnchoredNumber(w, c);
    Bot.ParseAmountOfSyntax(NumberTextAsWritten(amount), w, ".", c);
    NatToStringRoundTrip(amount / 100);
    NatToStringRoundTrip(amount % 100);
  }

  /** A number text is what the amount pattern covers: whole units, a dot, decimals. */
  lemma AnchoredNumber(w: string, c: string)
    requires |w| > 0 && AllDigits(w) && |c| <= 2 && AllDigits(c)
    ensures Bot.AmountSyntax(Bot.Anchored(w + "." + c), w, ".", c)
  {
    var t := w + "." + c;
    assert t[|t| - 1] != '\n' by {
      if |c| > 0 { assert t[|t| - 1] == c[|c| - 1]; } else { assert t[|t| - 1] == '.'; }
    }
  }

  /** The amount with its cents written as two digits, as the ledger reads them. */
  function NumberText(amount: nat): string
  {
    NatToString(amount / 100) + "." + TwoDigits(amount % 100)
  }

  function AmountText(amount: nat): string
  {
    "-" + NumberText(amount) + " " + Currency
  }

  /** The written amount reads back as the same number of cents. */
  lemma AmountTextRoundTrip(amount: nat)
    ensures Bot.ParseAmount(NumberText(amount)) == amount
  {
    var w, c := NatToString(amount / 100), TwoDigits(amount % 100);
    AnchoredNumber(w, c);
    Bot.ParseAmountOfSyntax(NumberText(amount), w, ".", c);
    NatToStringRoundTrip(amount / 100);
  }

  // ----- The rendered entry -------------------------------------------------------------

  /** The marker tag every entry the bot writes carries. */
  const BotTag: string := "#bot"

  /** Expense accounts are given either in full or without the root; the latter get it
      put in front. The test is `startswith(root)`, without the colon. */
  function Qualify(account: string, root: string): (qualified: string)
    ensures root <= qualified
    ensures root <= account ==> qualified == account
    ensures !(root <= account) ==> qualified == root + ":" + account
  {
    if root <= account then account else root + ":" + account
  }

  /** Qualifying twice is qualifying once, so writing a transaction again does not put the
      root in front twice. */
  lemma QualifyIdempotent(account: string, root: string)
    ensures Qualify(Qualify(account, root), root) == Qualify(account, root)
  {
  }

  /** The first line of an entry: date, the cleared flag, the quoted narration, the tags. */
  function HeaderLine(today: Date, narration: string, tags: seq<string>): string
    requires today.Valid()
  {
    DateText(today) + " * \"" + narration + "\" " + Join(tags, " ")
  }

  /** The text `__str__` returns: a newline, the header line, the asset posting with the
      amount, and the expense posting, which balances it. */
  function EntryText(today: Date, narration: string, tags: seq<string>, asset: string, amount: string, expense: string): (entry: string)
    requires today.Valid()
    ensures "\n" + DateText(today) <= entry
    ensures |entry| >= |expense| && entry[|entry| - |expense|..] == expense
  {
    "\n" + HeaderLine(today, narration, tags) + "\n    " + asset + " " + amount + "\n    " + expense
  }

  /** As long as no field holds a line break, the entry is an empty line followed by exactly
      three lines: the header, the asset posting and the expense posting. */
  lemma EntryLines(today: Date, narration: string, tags: seq<string>, asset: string, amount: string, expense: string)
    requires today.Valid()
    requires '\n' !in narration && '\n' !in asset && '\n' !in amount && '\n' !in expense
    requires forall i :: 0 <= i < |tags| ==> '\n' !in tags[i]
    ensures Split(EntryText(today, narration, tags, asset, amount, expense), '\n') ==
      ["", HeaderLine(today, narration, tags), "    " + asset + " " + amount, "    " + expense]
  {
    var header := HeaderLine(today, narration, tags);
    var lines := ["", header, "    " + asset + " " + amount, "    " + expense];
    JoinAvoids(tags, " ", '\n');
    assert '\n' !in header;
    JoinFour(lines, "\n");
    assert Join(lines, "\n") == EntryText(today, narration, tags, asset, amount, expense);
    SplitJoin(lines, '\n');
  }

  /** Joining parts and a separator that avoid a character gives a text that avoids it. */
  lemma {:induction false} JoinAvoids(parts: seq<string>, sep: string, c: char)
    requires c !in sep && forall i :: 0 <= i < |parts| ==> c !in parts[i]
    ensures c !in Join(parts, sep)
  {
    if |parts| > 1 {
      JoinAvoids(parts[1..], sep, c);
    }
  }

  /** A pending ledger transaction. Rendering it changes it: the marker tag is appended and
      the expense account is qualified with the root. The handlers call the two accounts
      `debit_account` (the expense) and `credit_account` (the asset). */
  class Transaction {
    var narration: string
    var expenseAccount: string
    var assetAccount: string
    var amount: int
    var tags: seq<string>
    const id: nat

    constructor (narration: string, expenseAccount: string, assetAccount: string, amount: int, tags: seq<string>, id: nat)
      ensures this.narration == narration && this.expenseAccount == expenseAccount
      ensures this.assetAccount == assetAccount && this.amount == amount
      ensures this.tags == tags && this.id == id
    {
      this.narration := narration;
      this.expenseAccount := expenseAccount;
      this.assetAccount := assetAccount;
      this.amount := amount;
      this.tags := tags;
      this.id := id;
    }

    /** `__str__`: validate, append the marker tag, and write the entry, or `""` when the
        ledger cannot be loaded (after the tag was appended). The amount is written with
        two-digit cents (see `AmountTextAsWritten` for the source's text). */
    method Render(today: Date, ledger: Ledger) returns (r: Result<string, Error>)
      requires today.Valid()
      modifies this
      ensures var err := Validation(old(narration), old(expenseAccount), old(assetAccount), old(amount));
        err.Some? ==> r == Failure(ValueError(err.value)) && unchanged(this)
      ensures Validation(old(narration), old(expenseAccount), old(assetAccount), old(amount)).None? ==>
        && tags == old(tags) + [BotTag]
        && narration == old(narration) && assetAccount == old(assetAccount) && amount == old(amount)
        && (ledger.hasErrors ==> r == Success("") && expenseAccount == old(expenseAccount))
        && (!ledger.hasErrors ==>
              && expenseAccount == Qualify(old(expenseAccount), ledger.nameExpenses)
              && r == Success(EntryText(today, narration, tags, assetAccount, AmountText(amount), expenseAccount)))
    {
      var err := Validation(narration, expenseAccount, assetAccount, amount);
      if err.Some? {
        return Failure(ValueError(err.value));
      }
      tags := tags + [BotTag];
      var m := AmountText(amount);
      if ledger.hasErrors {
        return Success("");
      }
      if !(ledger.nameExpenses <= expenseAccount) {
        expenseAccount := ledger.nameExpenses + ":" + expenseAccount;
      }
      r := Success(EntryText(today, narration, tags, assetAccount, m, expenseAccount));
    }
  }

  /** Every successful rendering appends the marker tag again, and a second rendering
      leaves the qualified account as the first one left it. */
  method RenderTwice(tx: Transaction, today: Date, ledger: Ledger) returns (first: Result<string, Error>, second: Result<string, Error>)
    requires today.Valid() && !ledger.hasErrors
    requires Validation(tx.narration, tx.expenseAccount, tx.assetAccount, tx.amount).None?
    modifies tx
    ensures first.Success? && second.Success?
    ensures tx.tags == old(tx.tags) + [BotTag, BotTag]
    ensures tx.expenseAccount == Qualify(old(tx.expenseAccount), ledger.nameExpenses)
  {
    first := tx.Render(today, ledger);
    assert tx.expenseAccount != "";
    second := tx.Render(today, ledger);
    QualifyIdempotent(old(tx.expenseAccount), ledger.nameExpenses);
  }

  // ----- The expense accounts -----------------------------------------------------------

  /** The expense accounts as the source extracts them: for every opened account that starts
      with `root + ":"`, `account.split(root + ":")[1]`, which stops at a second occurrence
      of the prefix inside the name. */
  function StrippedAsWritten(entries: seq<Entry>, prefix: string): (names: seq<string>)
    requires |prefix| > 0
    ensures forall x :: x in names <==> exists i :: 0 <= i < |entries| && OpensUnder(entries[i], prefix) &&
                                                   SecondField(entries[i].account, prefix) == Some(x)
  {
    if |entries| == 0 then []
    else
      var rest := StrippedAsWritten(entries[1..], prefix);
      assert forall i :: 1 <= i < |entries| ==> entries[i] == entries[1..][i - 1];
      match entries[0]
      case Open(a) =>
        if prefix <= a then
          assert Find(a, prefix) == Some(0);
          [SecondField(a, prefix).value] + rest
        else rest
      case OtherEntry => rest
  }

  /** `e` opens an account whose name starts with `prefix`. */
  predicate OpensUnder(e: Entry, prefix: string)
  {
    e.Open? && prefix <= e.account
  }

  /** The expense accounts with the prefix taken off and nothing else. */
  function Stripped(entries: seq<Entry>, prefix: string): (names: seq<string>)
    ensures forall x :: x in names <==> exists i :: 0 <= i < |entries| && entries[i] == Open(prefix + x)
  {
    if |entries| == 0 then []
    else
      var rest := Stripped(entries[1..], prefix);
      assert forall i :: 1 <= i < |entries| ==> entries[i] == entries[1..][i - 1];
      match entries[0]
      case Open(a) =>
        if prefix <= a then
          assert a == prefix + a[|prefix|..];
          assert forall x :: entries[0] == Open(prefix + x) ==> x == a[|prefix|..];
          [a[|prefix|..]] + rest
        else rest
      case OtherEntry => rest
  }

  /** `get_expense_accounts` as written: `None` when the ledger has errors, otherwise the
      names from `StrippedAsWritten`, sorted. */
  function ExpenseAccountsAsWritten(ledger: Ledger): (accounts: Option<seq<string>>)
    ensures ledger.hasErrors <==> accounts.None?
    ensures accounts.Some? ==> Sorted(accounts.value)
    ensures accounts.Some? ==> multiset(accounts.value) == multiset(StrippedAsWritten(ledger.entries, ledger.nameExpenses + ":"))
    ensures accounts.Some? ==> forall x :: x in accounts.value <==>
      exists i :: 0 <= i < |ledger.entries| && OpensUnder(ledger.entries[i], ledger.nameExpenses + ":") &&
                  SecondField(ledger.entries[i].account, ledger.nameExpenses + ":") == Some(x)
  {
    if ledger.hasErrors then None
    else
      var names := StrippedAsWritten(ledger.entries, ledger.nameExpenses + ":");
      var sorted := Sort(names);
      assert forall x :: x in sorted <==> x in names by {
        forall x ensures x in sorted <==> x in names {
          assert x in sorted <==> x in multiset(sorted);
          assert x in names <==> x in multiset(names);
        }
      }
      Some(sorted)
  }

  /** An expense account whose name holds `root + ":"` a second time is cut short there,
      so the list offers a name that is not an account: `Expenses:Food:PetExpenses:Dry`
      is offered as `Food:Pet`, where the corrected list offers `Food:PetExpenses:Dry`
      and not `Food:Pet`. */
  lemma ExpenseAccountsAsWrittenCutsShort(ledger: Ledger, x: string, y: string)
    requires !ledger.hasErrors
    requires var p := ledger.nameExpenses + ":"; ledger.entries == [Open(p + x + p + y)] && p[0] !in x
    ensures ExpenseAccountsAsWritten(ledger) == Some([x])
  {
    var p := ledger.nameExpenses + ":";
    SecondFieldStopsEarly(p, x, y);
    OneAccount(ledger, p + x + p + y);
  }

  /** The corrected list offers the whole name for the same ledger, and not the cut one. */
  lemma ExpenseAccountsKeepsWholeName(ledger: Ledger, x: string, y: string)
    requires !ledger.hasErrors
    requires var p := ledger.nameExpenses + ":"; ledger.entries == [Open(p + x + p + y)]
    ensures ExpenseAccounts(ledger).Some?
    ensures var p := ledger.nameExpenses + ":"; x + p + y in ExpenseAccounts(ledger).value
    ensures x !in ExpenseAccounts(ledger).value
  {
    var p := ledger.nameExpenses + ":";
    var z := x + p + y;
    var a := p + z;
    assert p + x + p + y == a;
    OneAccount(ledger, a);
    assert z in ExpenseAccounts(ledger).value;
    assert |p + x| != |a|;
  }

  /** The expense accounts of a ledger holding one opened account under the root. */
  lemma OneAccount(ledger: Ledger, a: string)
    requires ledger.entries == [Open(a)] && !ledger.hasErrors
    requires ledger.nameExpenses + ":" <= a
    ensures ExpenseAccountsAsWritten(ledger) == Some([SecondField(a, ledger.nameExpenses + ":").value])
    ensures ExpenseAccounts(ledger).Some?
    ensures forall x :: x in ExpenseAccounts(ledger).value <==> ledger.nameExpenses + ":" + x == a
  {
    var prefix := ledger.nameExpenses + ":";
    assert ledger.entries[1..] == [];
    assert Find(a, prefix) == Some(0);
    var names := StrippedAsWritten(ledger.entries, prefix);
    assert names == [SecondField(a, prefix).value] + StrippedAsWritten(ledger.entries[1..], prefix);
    assert Sort(names) == Insert(names[0], Sort([]));
    forall x ensures x in ExpenseAccounts(ledger).value <==> prefix + x == a {
      if prefix + x == a {
        assert ledger.entries[0] == Open(prefix + x);
      }
    }
  }

  /** `get_expense_accounts`: `None` when the ledger has errors, otherwise every opened
      account under the expenses root with `root + ":"` taken off, sorted. */
  function ExpenseAccounts(ledger: Ledger): (accounts: Option<seq<string>>)
    ensures ledger.hasErrors <==> accounts.None?
    ensures accounts.Some? ==> Sorted(accounts.value)
    ensures accounts.Some? ==> multiset(accounts.value) == multiset(Stripped(ledger.entries, ledger.nameExpenses + ":"))
    ensures accounts.Some? ==> forall x :: x in accounts.value <==>
      exists i :: 0 <= i < |ledger.entries| && ledger.entries[i] == Open(ledger.nameExpenses + ":" + x)
  {
    if ledger.hasErrors then None
    else
      var names := Stripped(ledger.entries, ledger.nameExpenses + ":");
      var sorted := Sort(names);
      assert forall x :: x in sorted <==> x in names by {
        forall x ensures x in sorted <==> x in names {
          assert x in sorted <==> x in multiset(sorted);
          assert x in names <==> x in multiset(names);
        }
      }
      Some(sorted)
  }

  // ----- Appending to the ledger file ---------------------------------------------------

  /** `append_tx`: refuse an empty entry, then a missing file name, then a file that does not
      exist; otherwise the file's new contents, the old ones followed by the entry, before
      `align_beancount` re-aligns them. */
  function AppendTx(entry: string, fileName: string, contents: Option<string>): (r: Result<string, Error>)
    ensures entry == "" ==> r == Failure(ValueError("Transaction cannot be empty"))
    ensures entry != "" && fileName == "" ==> r == Failure(ValueError("File must be specified"))
    ensures entry != "" && fileName != "" && contents.None? ==> r == Failure(FileNotFound)
    ensures r.Success? <==> entry != "" && fileName != "" && contents.Some?
    ensures r.Success? ==> contents.value <= r.value && r.value[|contents.value|..] == entry
  {
    if entry == "" then Failure(ValueError("Transaction cannot be empty"))
    else if fileName == "" then Failure(ValueError("File must be specified"))
    else if contents.None? then Failure(FileNotFound)
    else Success(contents.value + entry)
  }
}

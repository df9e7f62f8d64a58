/** The first message handler of the bot: reading an amount such as `2.99` or `25,93` into
    integer cents, and splitting a message `AMOUNT NARRATIVE... #TAGS... [ACCOUNT]` into its
    parts. */
module Bot {
  import opened Wrappers
  import opened Text

  /** What a pattern anchored with `^...$` may cover: Python's `$` matches at the end of
      the string and also just before a final newline, so a final `"\n"` is left over. */
  function Anchored(s: string): (t: string)
    ensures |s| > 0 && s[|s| - 1] == '\n' ==> s == t + "\n"
    ensures (|s| == 0 || s[|s| - 1] != '\n') ==> t == s
  {
    if |s| > 0 && s[|s| - 1] == '\n' then s[..|s| - 1] else s
  }

  /** The strings `(\d+)[\.,]?(\d{1,2})?` matches in full, split into its parts: the whole
      units, the optional separator and the optional one or two decimals. */
  ghost predicate AmountSyntax(t: string, whole: string, sep: string, cents: string)
  {
    t == whole + sep + cents &&
    |whole| > 0 && AllDigits(whole) &&
    (sep == "" || sep == "." || sep == ",") &&
    |cents| <= 2 && AllDigits(cents)
  }

  /** The number of digits at the front of `s`. */
  function DigitPrefix(s: string): (k: nat)
    ensures k <= |s| && AllDigits(s[..k])
    ensures k < |s| ==> !IsDigit(s[k])
  {
    if |s| == 0 || !IsDigit(s[0]) then 0
    else
      var k := 1 + DigitPrefix(s[1..]);
      assert s[..k] == [s[0]] + s[1..][..k - 1];
      k
  }

  /** The digit run at the front of `s` is the one that ends at a non-digit or at the end. */
  lemma {:induction false} DigitPrefixIs(s: string, m: nat)
    requires m <= |s| && AllDigits(s[..m]) && (m < |s| ==> !IsDigit(s[m]))
    ensures DigitPrefix(s) == m
  {
    if m > 0 {
      assert IsDigit(s[..m][0]);
      assert s[1..][..m - 1] == s[..m][1..];
      DigitPrefixIs(s[1..], m - 1);
    }
  }

  /** The two groups of the amount pattern when it matches: group 1 and group 2, the latter
      `""` where Python gives `None`. `\d+` is greedy, so a token of digits alone is all
      whole units. */
  function MatchAmount(s: string): Option<(string, string)>
  {
    var t := Anchored(s);
    var k := DigitPrefix(t);
    if k == 0 then None
    else if k == |t| then Some((t, ""))
    else if (t[k] == '.' || t[k] == ',') && |t| - k <= 3 && AllDigits(t[k + 1..]) then Some((t[..k], t[k + 1..]))
    else None
  }

  /** Every group pair the matcher returns is a split of the anchored text by the pattern,
      and a separator is present whenever decimals are. */
  lemma MatchAmountSound(s: string)
    ensures MatchAmount(s).Some? ==> var (w, c) := MatchAmount(s).value;
      exists sep :: AmountSyntax(Anchored(s), w, sep, c) && (sep == "" ==> c == "")
  {
    var t := Anchored(s);
    var k := DigitPrefix(t);
    if MatchAmount(s).None? {
    } else if k == |t| {
      var (w, c) := MatchAmount(s).value;
      assert t[..k] == t;
      assert AmountSyntax(t, w, "", c);
    } else {
      var (w, c) := MatchAmount(s).value;
      var sep := [t[k]];
      assert t == t[..k] + sep + t[k + 1..];
      assert AmountSyntax(t, w, sep, c);
    }
  }

  /** Conversely, every way the pattern can split the anchored text leads the matcher to
      the same groups that Python's (greedy) engine reports. */
  lemma {:induction false} MatchAmountComplete(s: string, w: string, sep: string, c: string)
    requires AmountSyntax(Anchored(s), w, sep, c)
    ensures MatchAmount(s) == if sep == "" then Some((w + c, "")) else Some((w, c))
  {
    var t := Anchored(s);
    var k := DigitPrefix(t);
    if sep == "" {
      assert t == w + c;
      assert t[..|t|] == t;
      DigitPrefixIs(t, |t|);
    } else {
      assert t[..|w|] == w && t[|w|] == sep[0];
      DigitPrefixIs(t, |w|);
      assert t[|w| + 1..] == c;
    }
  }

  /** The cents the decimals stand for: one decimal is padded with a zero on the right. */
  function CentsValue(c: string): (v: nat)
    requires AllDigits(c) && |c| <= 2
    ensures v < 100
    ensures |c| == 1 ==> v == 10 * DigitsValue(c)
  {
    if c == "" then 0
    else if |c| == 1 then
      assert (c + "0")[..1] == c;
      assert DigitsValue(c) < 10 by { assert c[..0] == []; }
      DigitsValue(c + "0")
    else
      assert DigitsValue(c[..1]) < 10 by { assert c[..1][..0] == []; }
      DigitsValue(c)
  }

  /** `parse_amount`: the amount in cents, or 0 when the token is not an amount. */
  function ParseAmount(s: string): (cents: nat)
    ensures MatchAmount(s).None? ==> cents == 0
  {
    match MatchAmount(s)
    case None => 0
    case Some((w, c)) =>
      MatchAmountSound(s);
      DigitsValue(w) * 100 + CentsValue(c)
  }

  /** A token of digits alone is that many whole units; one with a separator is whole
      units plus the decimals as cents. */
  lemma ParseAmountOfSyntax(s: string, w: string, sep: string, c: string)
    requires AmountSyntax(Anchored(s), w, sep, c)
    ensures sep == "" ==> ParseAmount(s) == DigitsValue(w + c) * 100
    ensures sep != "" ==> ParseAmount(s) == DigitsValue(w) * 100 + CentsValue(c)
  {
    MatchAmountComplete(s, w, sep, c);
    if sep == "" {
      ParseAmountOfMatch(s, w + c, "");
    } else {
      ParseAmountOfMatch(s, w, c);
    }
  }

  /** The amount is read off the two groups of the match: group 1 gives the whole units
      and group 2 the cents. */
  lemma ParseAmountOfMatch(s: string, w: string, c: string)
    requires MatchAmount(s) == Some((w, c))
    ensures AllDigits(w) && AllDigits(c) && |c| <= 2
    ensures ParseAmount(s) == DigitsValue(w) * 100 + CentsValue(c)
    ensures ParseAmount(s) / 100 == DigitsValue(w) && ParseAmount(s) % 100 == CentsValue(c)
  {
    MatchAmountSound(s);
    WholeAndCents(DigitsValue(w), CentsValue(c));
  }

  lemma WholeAndCents(whole: nat, cents: nat)
    requires cents < 100
    ensures (whole * 100 + cents) % 100 == cents && (whole * 100 + cents) / 100 == whole
  {
  }

  /** A token the pattern does not cover reads as 0, the same value as the token "0". */
  lemma ParseAmountRejects(s: string)
    requires forall w, sep, c :: !AmountSyntax(Anchored(s), w, sep, c)
    ensures ParseAmount(s) == 0
  {
    MatchAmountSound(s);
  }

  /** The amounts of the handler's docstring: `1.23`, `10` and `14.99`. */
  lemma ParseAmountDocstringExamples()
    ensures ParseAmount("1.23") == 123 && ParseAmount("10") == 1000 && ParseAmount("14.99") == 1499
  {
    OneTwentyThree();
    Ten();
    FourteenNinetyNine();
  }

  lemma OneTwentyThree()
    ensures ParseAmount("1.23") == 123
  {
    assert Anchored("1.23") == "1" + "." + "23";
    assert "23"[..1] == "2" && "2"[..0] == [];
    ParseAmountOfSyntax("1.23", "1", ".", "23");
  }

  lemma Ten()
    ensures ParseAmount("10") == 1000
  {
    assert Anchored("10") == "10" + "" + "" && "10" + "" == "10";
    assert "10"[..1] == "1" && "1"[..0] == [];
    ParseAmountOfSyntax("10", "10", "", "");
  }

  lemma FourteenNinetyNine()
    ensures ParseAmount("14.99") == 1499
  {
    assert Anchored("14.99") == "14" + "." + "99";
    assert "14"[..1] == "1" && "99"[..1] == "9" && "1"[..0] == [] && "9"[..0] == [];
    ParseAmountOfSyntax("14.99", "14", ".", "99");
  }

  /** Amounts of the shapes the handler reads: whole units, and one decimal after either
      separator. */
  lemma ParseAmountWholeExamples()
    ensures ParseAmount("12") == 1200 && ParseAmount("125") == 12500
  {
    assert Anchored("12") == "12" && "12" + "" == "12" && "12"[..1] == "1";
    ParseAmountOfSyntax("12", "12", "", "");
    assert Anchored("125") == "125" && "125" + "" == "125" && "125"[..2] == "12";
    ParseAmountOfSyntax("125", "125", "", "");
  }

  lemma ParseAmountDecimalExamples()
    ensures ParseAmount("1.5") == 150 && ParseAmount("1,5") == 150
  {
    assert Anchored("1.5") == "1" + "." + "5";
    ParseAmountOfSyntax("1.5", "1", ".", "5");
    assert Anchored("1,5") == "1" + "," + "5";
    ParseAmountOfSyntax("1,5", "1", ",", "5");
  }

  lemma ParseAmountTwoDecimalsExample()
    ensures ParseAmount("25,93") == 2593
  {
    assert Anchored("25,93") == "25" + "," + "93";
    assert "25"[..1] == "2" && "93"[..1] == "9" && "2"[..0] == [] && "9"[..0] == [];
    assert DigitsValue("25") == 25 && DigitsValue("93") == 93;
    ParseAmountOfSyntax("25,93", "25", ",", "93");
  }

  lemma ParseAmountRejectExamples()
    ensures ParseAmount("") == 0 && ParseAmount("abc") == 0
    ensures ParseAmount("1.555") == 0 && ParseAmount(".5") == 0
  {
    assert Anchored("abc") == "abc";
    assert DigitPrefix("abc") == 0;
    assert Anchored(".5") == ".5";
    assert DigitPrefix(".5") == 0;
    assert Anchored("1.555") == "1.555";
    assert "1.555"[1..][..0] == [];
    assert DigitPrefix("1.555") == 1;
  }

  /** `$` lets one final newline through, so an amount token that ends the line before a
      space (`12\n Lunch` splits into `12\n` and `Lunch`) reads as the amount itself. */
  lemma ParseAmountFinalNewline(s: string)
    requires '\n' !in s
    ensures ParseAmount(s + "\n") == ParseAmount(s)
  {
    assert (s + "\n")[..|s|] == s;
  }

  lemma ParseAmountNewlineExample()
    ensures ParseAmount("12\n") == 1200
  {
    ParseAmountWholeExamples();
    ParseAmountFinalNewline("12");
  }

  /** `p.startswith("#")` */
  predicate IsTag(p: string)
  {
    |p| > 0 && p[0] == '#'
  }

  /** How many tokens at the end of `parts` are tags: the length of the trailing run. */
  function TrailingTags(parts: seq<string>): (k: nat)
    ensures k <= |parts|
    ensures forall i :: |parts| - k <= i < |parts| ==> IsTag(parts[i])
    ensures k < |parts| ==> !IsTag(parts[|parts| - k - 1])
  {
    if |parts| == 0 || !IsTag(parts[|parts| - 1]) then 0
    else 1 + TrailingTags(parts[..|parts| - 1])
  }

  datatype Section = Tags | Narrative

  /** The tag scan of the message handler: walk the tokens from the last to the first,
      putting each in front of the current section, which starts as the tags and turns
      to the narrative, for good, at the first token that is not a tag. */
  method ScanTags(parts: seq<string>) returns (narrative: seq<string>, tags: seq<string>)
    ensures narrative + tags == parts
    ensures tags == parts[|parts| - TrailingTags(parts)..]
    ensures forall i :: 0 <= i < |tags| ==> IsTag(tags[i])
    ensures narrative == [] || !IsTag(narrative[|narrative| - 1])
  {
    var n, k := |parts|, TrailingTags(parts);
    var section := Tags;
    narrative, tags := [], [];
    var i := n;
    while i > 0
      invariant 0 <= i <= n
      invariant section == (if i >= n - k then Tags else Narrative)
      invariant i >= n - k ==> narrative == [] && tags == parts[i..]
      invariant i < n - k ==> narrative == parts[i..n - k] && tags == parts[n - k..]
    {
      var p := parts[i - 1];
      if !IsTag(p) {
        section := Narrative;
      }
      if section == Tags {
        tags := [p] + tags;
      } else {
        narrative := [p] + narrative;
      }
      i := i - 1;
    }
    assert parts[..n - k] + parts[n - k..] == parts;
  }

  /** `re.match(r"^\[(.+)\]$", token)`: the text between the brackets when the token is an
      opening bracket, at least one character other than a newline and a closing bracket
      (a final newline after it allowed, as `$` allows). */
  function BracketAccount(token: string): (account: Option<string>)
    ensures account.Some? ==>
      account.value != "" && '\n' !in account.value && Anchored(token) == "[" + account.value + "]"
  {
    var t := Anchored(token);
    if |t| >= 3 && t[0] == '[' && t[|t| - 1] == ']' && '\n' !in t[1..|t| - 1] then
      assert t == "[" + t[1..|t| - 1] + "]";
      Some(t[1..|t| - 1])
    else None
  }

  /** Every bracketed account name is recognised and given back unchanged. */
  lemma BracketAccountRoundTrip(name: string)
    requires name != "" && '\n' !in name
    ensures BracketAccount("[" + name + "]") == Some(name)
  {
    var t := "[" + name + "]";
    assert Anchored(t) == t;
    assert t[1..|t| - 1] == name;
  }

  /** The same for the bracketed account: one final newline after the bracket is let
      through. */
  lemma BracketAccountFinalNewline(token: string)
    requires '\n' !in token
    ensures BracketAccount(token + "\n") == BracketAccount(token)
  {
    assert (token + "\n")[..|token|] == token;
  }

  datatype Message = Message(amount: nat, account: string, tags: seq<string>, narrative: seq<string>)

  /** What the handler does with a message: ask for a proper one, report an amount it
      cannot read, or report the parts it found. */
  datatype Reply = Help | AmountUnreadable | Parsed(message: Message)

  /** The body of the `tx` handler: split the text at single spaces, read the amount from
      the first token, take a bracketed account from the last remaining one, and divide the
      rest into narrative and trailing tags. */
  method ParseMessage(text: string) returns (reply: Reply)
    ensures reply == Help <==> |Split(text, ' ')| < 2
    ensures reply == AmountUnreadable <==>
      |Split(text, ' ')| >= 2 && ParseAmount(Split(text, ' ')[0]) == 0
    ensures reply.Parsed? ==>
      var parts := Split(text, ' ');
      var m := reply.message;
      var rest := parts[1..];
      var body := if BracketAccount(rest[|rest| - 1]).Some? then rest[..|rest| - 1] else rest;
      && m.amount == ParseAmount(parts[0]) > 0
      && (m.account == if BracketAccount(rest[|rest| - 1]).Some? then BracketAccount(rest[|rest| - 1]).value else "")
      && m.narrative + m.tags == body
      && |m.tags| == TrailingTags(body)
      && (forall i :: 0 <= i < |m.tags| ==> IsTag(m.tags[i]))
      && (m.narrative == [] || !IsTag(m.narrative[|m.narrative| - 1]))
  {
    var parts := Split(text, ' ');
    if |parts| < 2 {
      return Help;
    }
    var amount := ParseAmount(parts[0]);
    parts := parts[1..];
    if amount == 0 {
      return AmountUnreadable;
    }
    var account := "";
    var bracket := BracketAccount(parts[|parts| - 1]);
    if bracket.Some? {
      account := bracket.value;
      parts := parts[..|parts| - 1];
    }
    var narrative, tags := ScanTags(parts);
    return Parsed(Message(amount, account, tags, narrative));
  }

  // ----- The examples of the handler's documentation ----------------------------------

  /** The docstring offers `2.99 Supermarket [Groceries] #vacation`. Only the last token is
      looked at for an account, and `#vacation` has no brackets: no account is read, and
      the tag scan keeps `[Groceries]` in the narrative, before the one tag. */
  lemma DocstringAccountBeforeTag(text: string)
    requires text == "2.99" + " " + "Supermarket" + " " + "[Groceries]" + " " + "#vacation"
    ensures Split(text, ' ') == ["2.99", "Supermarket", "[Groceries]", "#vacation"]
    ensures ParseAmount("2.99") == 299
    ensures BracketAccount("#vacation") == None
    ensures TrailingTags(["Supermarket", "[Groceries]", "#vacation"]) == 1
  {
    FourWords("2.99", "Supermarket", "[Groceries]", "#vacation");
    TwoNinetyNine();
    assert Anchored("#vacation") == "#vacation";
    NarrativeBeforeTag("Supermarket", "[Groceries]", "#vacation");
  }

  /** The same message with the account last, as the handler reads messages: the account
      `Groceries`, then one tag after a narrative of one word. */
  lemma DocstringAccountLast(text: string)
    requires text == "2.99" + " " + "Supermarket" + " " + "#vacation" + " " + "[Groceries]"
    ensures Split(text, ' ') == ["2.99", "Supermarket", "#vacation", "[Groceries]"]
    ensures ParseAmount("2.99") == 299
    ensures BracketAccount("[Groceries]") == Some("Groceries")
    ensures TrailingTags(["Supermarket", "#vacation"]) == 1
  {
    FourWords("2.99", "Supermarket", "#vacation", "[Groceries]");
    TwoNinetyNine();
    GroceriesInBrackets("Groceries");
    NarrativeBeforeTag("Supermarket", "", "#vacation");
  }

  /** The help text offers `.5 Metro #trip2019`, but the amount pattern wants a digit
      first: the amount reads as 0 and the message is answered as unreadable. */
  lemma HelpExampleUnreadable(text: string)
    requires text == ".5 Metro #trip2019"
    ensures Split(text, ' ') == [".5", "Metro", "#trip2019"]
    ensures ParseAmount(".5") == 0
  {
    assert text == ".5" + " " + "Metro" + " " + "#trip2019";
    ThreeWords(".5", "Metro", "#trip2019");
    ParseAmountRejectExamples();
  }

  /** Written with the leading zero, the same message is 50 cents, no account, and one tag
      after a narrative of one word. */
  lemma HelpExampleWithZero(text: string)
    requires text == "0.5 Metro #trip2019"
    ensures Split(text, ' ') == ["0.5", "Metro", "#trip2019"]
    ensures ParseAmount("0.5") == 50
    ensures BracketAccount("#trip2019") == None
    ensures TrailingTags(["Metro", "#trip2019"]) == 1
  {
    assert text == "0.5" + " " + "Metro" + " " + "#trip2019";
    ThreeWords("0.5", "Metro", "#trip2019");
    ZeroPointFive();
    assert Anchored("#trip2019") == "#trip2019";
    NarrativeBeforeTag("Metro", "", "#trip2019");
  }

  lemma GroceriesInBrackets(name: string)
    requires name == "Groceries"
    ensures BracketAccount("[Groceries]") == Some(name)
  {
    BracketAccountRoundTrip(name);
    assert "[" + name + "]" == "[Groceries]";
  }

  lemma TwoNinetyNine()
    ensures ParseAmount("2.99") == 299
  {
    assert Anchored("2.99") == "2" + "." + "99";
    assert "2"[..0] == [] && "99"[..1] == "9" && "9"[..0] == [];
    ParseAmountOfSyntax("2.99", "2", ".", "99");
  }

  lemma ZeroPointFive()
    ensures ParseAmount("0.5") == 50
  {
    assert Anchored("0.5") == "0" + "." + "5";
    assert "0"[..0] == [] && "5"[..0] == [];
    ParseAmountOfSyntax("0.5", "0", ".", "5");
  }

  /** One or two words that are not tags, then one tag: the tag is the trailing run. */
  lemma NarrativeBeforeTag(a: string, b: string, tag: string)
    requires !IsTag(a) && !IsTag(b) && IsTag(tag)
    ensures var ws := if b == "" then [a, tag] else [a, b, tag];
      TrailingTags(ws) == 1 && ws[..|ws| - 1] == (if b == "" then [a] else [a, b])
  {
    var ws := if b == "" then [a, tag] else [a, b, tag];
    assert ws[..|ws| - 1] == (if b == "" then [a] else [a, b]);
    assert TrailingTags(ws[..|ws| - 1]) == 0;
  }

  lemma ThreeWords(a: string, b: string, c: string)
    requires ' ' !in a && ' ' !in b && ' ' !in c
    ensures Split(a + " " + b + " " + c, ' ') == [a, b, c]
  {
    OneWord(a);
    SplitAppend(a, b, ' ');
    SplitAppend(a + " " + b, c, ' ');
  }

  lemma FourWords(a: string, b: string, c: string, d: string)
    requires ' ' !in a && ' ' !in b && ' ' !in c && ' ' !in d
    ensures Split(a + " " + b + " " + c + " " + d, ' ') == [a, b, c, d]
  {
    ThreeWords(a, b, c);
    SplitAppend(a + " " + b + " " + c, d, ' ');
  }

  /** A word without spaces is its own only piece. */
  lemma OneWord(a: string)
    requires ' ' !in a
    ensures Split(a, ' ') == [a]
  {
    SplitJoin([a], ' ');
  }
}

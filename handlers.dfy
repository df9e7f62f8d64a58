/** The Telegram handlers of the bot, without Telegram: the account menu that narrows down
    one colon-separated level at a time, the buttons and their callback data, the routing
    of an incoming message, the account and confirm callbacks, the commit of a
    transaction, the check of the user's settings and the withdraw command.

    The handlers call a newer ledger interface than the one in `beans.py` (`parse_tx`,
    `format_amount`, `debit_account`/`credit_account`, an `append_tx` that returns the
    balances); what that code returns is an input here. The debit account is the
    transaction's expense account and the credit account its asset account. */
module Handlers {
  import opened Wrappers
  import opened Text
  import opened Sorting
  import Config
  import Bot
  import Beans
  import opened Storage

  // ----- The account menu -------------------------------------------------------------

  /** The accounts that start with `path` (the filter of the menu). */
  function UnderPath(values: seq<string>, path: string): (under: seq<string>)
    ensures forall x :: x in under <==> x in values && path <= x
  {
    if |values| == 0 then []
    else
      var rest := UnderPath(values[1..], path);
      assert forall x :: x in values <==> x == values[0] || x in values[1..];
      if path <= values[0] then [values[0]] + rest else rest
  }

  /** `[v.split(p)[1] for v in values]`, or `None` where one of them does not hold `p`
      and Python raises `IndexError`. */
  function SecondFields(values: seq<string>, p: string): (fields: Option<seq<string>>)
    requires |p| > 0
    ensures fields.None? <==> exists v :: v in values && Find(v, p).None?
    ensures fields.Some? ==> |fields.value| == |values|
    ensures fields.Some? ==>
      forall i :: 0 <= i < |values| ==> fields.value[i] == SecondField(values[i], p).value
  {
    if |values| == 0 then Some([])
    else
      var rest := SecondFields(values[1..], p);
      assert forall v :: v in values <==> v == values[0] || v in values[1..];
      match SecondField(values[0], p)
      case None => None
      case Some(f) =>
        if rest.None? then None
        else Some([f] + rest.value)
  }

  /** `[v.split(":")[0] for v in values]` */
  function FirstSegments(values: seq<string>): (segments: seq<string>)
    ensures |segments| == |values|
    ensures forall i :: 0 <= i < |values| ==> segments[i] == FirstSegment(values[i])
  {
    seq(|values|, i requires 0 <= i < |values| => FirstSegment(values[i]))
  }

  /** `_get_options_for_path` as written: keep the accounts that start with `path`, take
      `split(path + ":")[1]` of each and its first segment, and sort them without
      repetition. An account that starts with `path` but not with `path + ":"` (a sibling
      such as `FoodDrinks` under `Food`) makes it fail, and a name that holds `path + ":"`
      again is cut short there. */
  function OptionsForPathAsWritten(values: seq<string>, path: string): (options: Option<seq<string>>)
    ensures options.None? <==>
      path != "" && exists v :: v in values && path <= v && Find(v, path + ":").None?
    ensures options.Some? ==> StrictlySorted(options.value)
    ensures options.Some? ==> forall x :: x in options.value <==> exists v :: v in values && ChildOfAsWritten(path, v, x)
  {
    var under := UnderPath(values, path);
    if path == "" then
      assert forall i :: 0 <= i < |under| ==> Kept(path, under[i], under[i]);
      AsWrittenSegments(values, path, under, under);
      Some(SortedSet(FirstSegments(under)))
    else
      match SecondFields(under, path + ":")
      case None => None
      case Some(fields) =>
        assert forall i :: 0 <= i < |under| ==> Kept(path, under[i], fields[i]);
        AsWrittenSegments(values, path, under, fields);
        Some(SortedSet(FirstSegments(fields)))
  }

  /** The first segments of what the source's menu keeps of each account below `path`
      (the account itself at the root, its second field otherwise) are the entries
      `ChildOfAsWritten` describes. */
  lemma AsWrittenSegments(values: seq<string>, path: string, under: seq<string>, fields: seq<string>)
    requires forall v :: v in under <==> v in values && path <= v
    requires |fields| == |under|
    requires forall i :: 0 <= i < |fields| ==> Kept(path, under[i], fields[i])
    ensures forall x :: x in FirstSegments(fields) <==> exists v :: v in values && ChildOfAsWritten(path, v, x)
  {
    forall x ensures x in FirstSegments(fields) <==> exists v :: v in values && ChildOfAsWritten(path, v, x) {
      if x in FirstSegments(fields) {
        SegmentIsChild(values, path, under, fields, x);
      }
      if exists v :: v in values && ChildOfAsWritten(path, v, x) {
        var v :| v in values && ChildOfAsWritten(path, v, x);
        ChildIsSegment(values, path, under, fields, v, x);
      }
    }
  }

  lemma SegmentIsChild(values: seq<string>, path: string, under: seq<string>, fields: seq<string>, x: string)
    requires forall v :: v in under <==> v in values && path <= v
    requires |fields| == |under|
    requires forall i :: 0 <= i < |fields| ==> Kept(path, under[i], fields[i])
    requires x in FirstSegments(fields)
    ensures exists v :: v in values && ChildOfAsWritten(path, v, x)
  {
    var segments := FirstSegments(fields);
    var i :| 0 <= i < |fields| && segments[i] == x;
    assert under[i] in under;
    KeptChild(path, under[i], fields[i]);
  }

  lemma ChildIsSegment(values: seq<string>, path: string, under: seq<string>, fields: seq<string>, v: string, x: string)
    requires forall v :: v in under <==> v in values && path <= v
    requires |fields| == |under|
    requires forall i :: 0 <= i < |fields| ==> Kept(path, under[i], fields[i])
    requires v in values && ChildOfAsWritten(path, v, x)
    ensures x in FirstSegments(fields)
  {
    assert v in under;
    var i :| 0 <= i < |under| && under[i] == v;
    ChildKept(path, v, fields[i], x);
    assert FirstSegments(fields)[i] == x;
  }

  /** What the source's menu keeps of an account `v` below `path`. */
  predicate Kept(path: string, v: string, field: string)
  {
    if path == "" then field == v else SecondField(v, path + ":") == Some(field)
  }

  lemma KeptChild(path: string, v: string, field: string)
    requires path <= v && Kept(path, v, field)
    ensures ChildOfAsWritten(path, v, FirstSegment(field))
  {
  }

  lemma ChildKept(path: string, v: string, field: string, x: string)
    requires Kept(path, v, field) && ChildOfAsWritten(path, v, x)
    ensures FirstSegment(field) == x
  {
  }

  /** `x` is offered below `path` on account of `v` by the source's menu: `v` starts with
      `path`, and `x` is the first segment of `v` at the root, else of `v.split(path + ":")[1]`. */
  predicate ChildOfAsWritten(path: string, v: string, x: string)
  {
    && path <= v
    && if path == "" then x == FirstSegment(v)
       else SecondField(v, path + ":").Some? && x == FirstSegment(SecondField(v, path + ":").value)
  }

  /** `x` is offered below `path` on account of `v`: at the root, the first segment of
      every account; below it, the first segment of what follows `path + ":"`. */
  predicate ChildOf(path: string, v: string, x: string)
  {
    if path == "" then x == FirstSegment(v)
    else path + ":" <= v && x == FirstSegment(v[|path| + 1..])
  }

  /** What follows `path + ":"` in the accounts below `path`, or all accounts at the root. */
  function Below(values: seq<string>, path: string): (rest: seq<string>)
    ensures path == "" ==> rest == values
    ensures path != "" ==>
      forall r :: r in rest <==> exists v :: v in values && path + ":" <= v && r == v[|path| + 1..]
  {
    if path == "" then values
    else if |values| == 0 then []
    else
      var tail := Below(values[1..], path);
      var v := values[0];
      assert forall w :: w in values <==> w == v || w in values[1..];
      if path + ":" <= v then
        var rest := [v[|path| + 1..]] + tail;
        assert forall r :: r in rest <==> exists w :: w in values && path + ":" <= w && r == w[|path| + 1..] by {
          forall r ensures r in rest <==> exists w :: w in values && path + ":" <= w && r == w[|path| + 1..] {
            if r == v[|path| + 1..] {
              assert v in values && path + ":" <= v && r == v[|path| + 1..];
            } else if r in rest {
              assert r in tail;
              var w :| w in values[1..] && path + ":" <= w && r == w[|path| + 1..];
              assert w in values;
            }
            if exists w :: w in values && path + ":" <= w && r == w[|path| + 1..] {
              var w :| w in values && path + ":" <= w && r == w[|path| + 1..];
              if w != v {
                assert w in values[1..];
              }
            }
          }
        }
        rest
      else tail
  }

  /** The menu at `path`: each next level below it once, in order, and nothing else. */
  function OptionsForPath(values: seq<string>, path: string): (options: seq<string>)
    ensures StrictlySorted(options)
    ensures forall x :: x in options ==> ':' !in x
    ensures forall x :: x in options <==> exists v :: v in values && ChildOf(path, v, x)
  {
    var rest := Below(values, path);
    var options := SortedSet(FirstSegments(rest));
    assert forall x :: x in FirstSegments(rest) <==> exists r :: r in rest && x == FirstSegment(r) by {
      forall x ensures x in FirstSegments(rest) <==> exists r :: r in rest && x == FirstSegment(r) {
        if x in FirstSegments(rest) {
          var i :| 0 <= i < |rest| && FirstSegments(rest)[i] == x;
          assert rest[i] in rest;
        }
        if exists r :: r in rest && x == FirstSegment(r) {
          var r :| r in rest && x == FirstSegment(r);
          var i :| 0 <= i < |rest| && rest[i] == r;
          assert FirstSegments(rest)[i] == x;
        }
      }
    }
    options
  }

  /** A menu whose accounts all lead to the one entry `x` is that entry alone. */
  lemma OnlyOption(values: seq<string>, path: string, v: string, x: string)
    requires v in values && ChildOf(path, v, x)
    requires forall w, z :: w in values && ChildOf(path, w, z) ==> z == x
    ensures OptionsForPath(values, path) == [x]
  {
    var options := OptionsForPath(values, path);
    assert forall z :: z in options <==> z == x;
    StrictlySortedUnique(options, [x]);
  }

  /** Every account starts with the empty path. */
  lemma {:induction false} UnderRoot(values: seq<string>)
    ensures UnderPath(values, "") == values
  {
    if |values| > 0 {
      UnderRoot(values[1..]);
      assert "" <= values[0];
      assert values == [values[0]] + values[1..];
    }
  }

  /** At the root the source's menu and the corrected one agree. */
  lemma OptionsAtRootAgree(values: seq<string>)
    ensures OptionsForPathAsWritten(values, "") == Some(OptionsForPath(values, ""))
  {
    UnderRoot(values);
  }

  /** A sibling account that starts with the path's text but is not below it makes the
      source's menu fail (`Food` and `FoodDrinks`). */
  lemma OptionsAsWrittenFailsOnSibling(path: string, child: string, sibling: string)
    requires path != "" && path <= sibling && ':' !in sibling
    ensures OptionsForPathAsWritten([path + ":" + child, sibling], path).None?
  {
    var values := [path + ":" + child, sibling];
    assert sibling in values;
    forall j | 0 <= j <= |sibling| ensures !(path + ":" <= sibling[j..]) {
      if j + |path| < |sibling| {
        assert sibling[j..][|path|] == sibling[j + |path|];
      }
    }
  }

  /** With the same accounts the corrected menu offers the children of the path alone. */
  lemma OptionsIgnoreSibling(path: string, child: string, sibling: string)
    requires path != "" && path <= sibling && ':' !in sibling && ':' !in child
    ensures OptionsForPath([path + ":" + child, sibling], path) == [child]
  {
    var values := [path + ":" + child, sibling];
    if |path| < |sibling| {
      assert sibling[|path|] != ':';
    }
    assert !(path + ":" <= sibling);
    assert (path + ":" + child)[|path| + 1..] == child;
    FirstSegmentNoColon(child);
    forall w, z | w in values && ChildOf(path, w, z) ensures z == child {
      assert w == values[0] || w == sibling;
    }
    OnlyOption(values, path, values[0], child);
  }

  lemma FirstSegmentNoColon(s: string)
    requires ':' !in s
    ensures FirstSegment(s) == s
  {
  }

  /** A sorted list without repetition of one name is that name. */
  lemma SortedSetOne(x: string)
    ensures SortedSet([x]) == [x]
  {
    StrictlySortedUnique(SortedSet([x]), [x]);
  }

  /** The source's menu below `path` for one account that has `path + ":"` in it. */
  lemma AsWrittenOfOne(v: string, path: string)
    requires path != "" && path <= v && SecondField(v, path + ":").Some?
    ensures OptionsForPathAsWritten([v], path) == Some(SortedSet([FirstSegment(SecondField(v, path + ":").value)]))
  {
    var vs: seq<string> := [v];
    assert vs[1..] == [];
    assert UnderPath(vs, path) == vs;
    var f := SecondField(v, path + ":").value;
    assert SecondFields(vs[1..], path + ":") == Some([]);
    assert [f] + [] == [f];
    assert SecondFields(vs, path + ":") == Some([f]);
    assert FirstSegments([f]) == [FirstSegment(f)];
  }

  /** A child name that holds the path's text followed by a colon is cut short by the
      source's menu: below `Food`, `Food:PetFood:Dry` offers `Pet`. */
  lemma OptionsAsWrittenCutsShort(path: string, x: string, y: string)
    requires path != "" && ':' !in x && path[0] !in x
    ensures OptionsForPathAsWritten([(path + ":") + x + (path + ":") + y], path) == Some([x])
  {
    var p := path + ":";
    var v := p + x + p + y;
    assert p[0] == path[0];
    SecondFieldStopsEarly(p, x, y);
    assert path <= v;
    AsWrittenOfOne(v, path);
    FirstSegmentNoColon(x);
    SortedSetOne(x);
  }

  /** The corrected menu offers the whole next level there: `PetFood`. */
  lemma OptionsKeepWholeName(path: string, x: string, y: string)
    requires path != "" && ':' !in path && ':' !in x
    ensures OptionsForPath([path + ":" + x + path + ":" + y], path) == [x + path]
  {
    var v := path + ":" + x + path + ":" + y;
    var rest := v[|path| + 1..];
    assert rest == (x + path) + ":" + y;
    FirstSegmentOf(x + path, y);
    assert ChildOf(path, v, x + path);
    OnlyOption([v], path, v, x + path);
  }

  // ----- Moving along the path --------------------------------------------------------

  /** `":".join(path.split(":")[:-1])`: the path without its last segment. */
  function PathBack(path: string): (parent: string)
    ensures ':' !in path ==> parent == ""
    ensures ':' in path ==> parent + ":" <= path && ':' !in path[|parent| + 1..]
  {
    var parts := Split(path, ':');
    JoinSplit(path, ':');
    if |parts| >= 2 then
      JoinLast(parts, ":");
      var parent := Join(parts[..|parts| - 1], ":");
      assert path == parent + ":" + parts[|parts| - 1];
      assert path[|parent| + 1..] == parts[|parts| - 1];
      parent
    else
      Join(parts[..|parts| - 1], ":")
  }

  /** Choosing `segment` goes one level down: the segment itself at the root, otherwise
      the path, a colon and the segment. */
  function PathChoose(path: string, segment: string): string
  {
    (if path != "" then path + ":" else "") + segment
  }

  /** Going back after choosing a menu entry returns to the path it was chosen at. */
  lemma BackAfterChoose(path: string, segment: string)
    requires ':' !in segment
    ensures PathBack(PathChoose(path, segment)) == path
  {
    if path != "" {
      var s := path + ":" + segment;
      assert PathChoose(path, segment) == s;
      SplitAppend(path, segment, ':');
      assert path + [':'] + segment == s;
      var parts := Split(s, ':');
      assert parts[..|parts| - 1] == Split(path, ':');
      JoinSplit(path, ':');
    }
  }

  /** `state.accounts[int(choice)]`: the index a choice names, with Python's negative
      indices counted from the end, or `None` where `int()` or the indexing raises. */
  function Index(accounts: seq<string>, choice: string): (i: Option<nat>)
    ensures i.Some? <==> ParseInt(choice).Some? && -|accounts| <= ParseInt(choice).value < |accounts|
    ensures i.Some? ==> i.value < |accounts|
    ensures i.Some? && ParseInt(choice).value >= 0 ==> i.value == ParseInt(choice).value
    ensures i.Some? && ParseInt(choice).value < 0 ==> |accounts| - i.value == -ParseInt(choice).value
  {
    match ParseInt(choice)
    case None => None
    case Some(k) =>
      if 0 <= k < |accounts| then Some(k)
      else if -|accounts| <= k < 0 then Some(|accounts| + k)
      else None
  }

  /** The outcome of a menu step on the path: the new path, and whether the step went
      through. A choice that is not an index fails after the colon was already added. */
  datatype Step = Step(path: string, ok: bool)

  /** The path logic of `_handle_account_callback`. */
  function Transition(path: string, accounts: seq<string>, choice: string): (step: Step)
    ensures step.ok <==> choice == "back" || Index(accounts, choice).Some?
    ensures choice == "back" ==> step.path == PathBack(path)
    ensures choice != "back" && path != "" ==> path + ":" <= step.path
    ensures !step.ok ==> step.path == (if path != "" then path + ":" else "")
    ensures choice != "back" && step.ok ==> step.path == PathChoose(path, accounts[Index(accounts, choice).value])
    ensures choice != "back" && step.ok && ':' !in accounts[Index(accounts, choice).value] ==> PathBack(step.path) == path
  {
    if choice == "back" then Step(PathBack(path), true)
    else
      match Index(accounts, choice)
      case None => Step(if path != "" then path + ":" else "", false)
      case Some(i) =>
        assert ':' !in accounts[i] ==> PathBack(PathChoose(path, accounts[i])) == path by {
          if ':' !in accounts[i] {
            BackAfterChoose(path, accounts[i]);
          }
        }
        Step(PathChoose(path, accounts[i]), true)
  }

  /** Pressing the button of entry `i` and then Back returns to the same path. */
  lemma ChooseThenBack(path: string, accounts: seq<string>, i: nat, later: seq<string>)
    requires i < |accounts| && ':' !in accounts[i]
    ensures Transition(path, accounts, NatToString(i)) == Step(PathChoose(path, accounts[i]), true)
    ensures Transition(Transition(path, accounts, NatToString(i)).path, later, "back") == Step(path, true)
  {
    IndexOfButton(accounts, i);
    assert NatToString(i) != "back" by { assert IsDigit(NatToString(i)[0]); }
    BackAfterChoose(path, accounts[i]);
  }

  /** The index a button carries names the entry it was made for. */
  lemma IndexOfButton(accounts: seq<string>, i: nat)
    requires i < |accounts|
    ensures Index(accounts, NatToString(i)) == Some(i)
  {
    NatToStringRoundTrip(i);
  }

  /** Choosing the entry `x` that account `v` offers leads toward `v`: the new path is `v`
      or a colon-terminated prefix of it. */
  lemma LeadsTo(path: string, v: string, x: string)
    requires ChildOf(path, v, x)
    ensures PathChoose(path, x) == v || PathChoose(path, x) + ":" <= v
  {
    var pre := if path != "" then path + ":" else "";
    var rest := v[|pre|..];
    assert pre <= v;
    assert x == FirstSegment(rest);
    assert v == pre + rest;
    assert PathChoose(path, x) == pre + x;
    if x != rest {
      assert rest[|x|] == ':';
      assert rest[..|x| + 1] == x + ":";
      PrefixUnder(pre, x + ":", rest);
      assert pre + x + ":" == pre + (x + ":");
    }
  }

  /** Putting the same text in front keeps a prefix a prefix. */
  lemma PrefixUnder(p: string, a: string, b: string)
    requires a <= b
    ensures p + a <= p + b
  {
    assert (p + b)[..|p + a|] == p + a;
  }

  /** Every menu entry leads toward an account. */
  lemma OptionLeadsToAccount(values: seq<string>, path: string, x: string)
    requires x in OptionsForPath(values, path)
    ensures exists v :: v in values && (PathChoose(path, x) == v || PathChoose(path, x) + ":" <= v)
  {
    var v :| v in values && ChildOf(path, v, x);
    LeadsTo(path, v, x);
  }

  /** Conversely, every account below the path is reachable through one of the entries. */
  lemma AccountReachable(values: seq<string>, path: string, v: string)
    requires v in values && (path == "" || path + ":" <= v)
    ensures exists x :: x in OptionsForPath(values, path) && (PathChoose(path, x) == v || PathChoose(path, x) + ":" <= v)
  {
    var x := FirstSegment(if path == "" then v else v[|path| + 1..]);
    assert ChildOf(path, v, x);
    assert x in OptionsForPath(values, path);
    LeadsTo(path, v, x);
  }

  // ----- Buttons ----------------------------------------------------------------------

  datatype Button = Button(caption: string, data: string)

  const BackLabel: string := "\U{2B05}\U{FE0F} Back"

  /** `f"accounts:{id}:{choice}"` */
  function AccountsData(id: nat, choice: string): string
  {
    "accounts:" + NatToString(id) + ":" + choice
  }

  /** `f"confirm:{id}"` */
  function ConfirmData(id: nat): string
  {
    "confirm:" + NatToString(id)
  }

  /** The buttons of a menu: Back first when the path is not the root, then one button per
      entry captioned with it. */
  function Buttons(id: nat, path: string, accounts: seq<string>): (btns: seq<Button>)
    ensures var back := if path != "" then 1 else 0;
      && |btns| == back + |accounts|
      && (path != "" ==> btns[0] == Button(BackLabel, AccountsData(id, "back")))
      && forall i :: 0 <= i < |accounts| ==>
           btns[back + i] == Button(accounts[i], AccountsData(id, NatToString(i)))
  {
    (if path != "" then [Button(BackLabel, AccountsData(id, "back"))] else []) +
    seq(|accounts|, i requires 0 <= i < |accounts| => Button(accounts[i], AccountsData(id, NatToString(i))))
  }

  /** One more entry adds its button at the end. */
  lemma ButtonsExtend(id: nat, path: string, accounts: seq<string>, i: nat)
    requires i < |accounts|
    ensures Buttons(id, path, accounts[..i + 1]) ==
      Buttons(id, path, accounts[..i]) + [Button(accounts[i], AccountsData(id, NatToString(i)))]
  {
    var longer, shorter := Buttons(id, path, accounts[..i + 1]), Buttons(id, path, accounts[..i]);
    var back := if path != "" then 1 else 0;
    forall j | 0 <= j < |longer| ensures longer[j] == (shorter + [Button(accounts[i], AccountsData(id, NatToString(i)))])[j] {
      if back <= j {
        assert longer[back + (j - back)] == Button(accounts[..i + 1][j - back], AccountsData(id, NatToString(j - back)));
      }
      if back <= j < back + i {
        assert shorter[back + (j - back)] == Button(accounts[..i][j - back], AccountsData(id, NatToString(j - back)));
      }
    }
  }

  /** `_get_btns`: the menu's buttons, built in a loop. */
  method GetBtns(state: ConversationState) returns (btns: seq<Button>)
    ensures btns == Buttons(state.id, state.currentPath, state.accounts)
  {
    var id, path, accounts := state.id, state.currentPath, state.accounts;
    btns := [];
    if path != "" {
      btns := btns + [Button(BackLabel, AccountsData(id, "back"))];
    }
    assert btns == Buttons(id, path, accounts[..0]);
    var i := 0;
    while i < |accounts|
      invariant 0 <= i <= |accounts|
      invariant btns == Buttons(id, path, accounts[..i])
    {
      ButtonsExtend(id, path, accounts, i);
      btns := btns + [Button(accounts[i], AccountsData(id, NatToString(i)))];
      i := i + 1;
    }
    assert accounts[..i] == accounts;
  }

  /** The callback data of a button splits into the handler's prefix, the key the state is
      stored under, and the choice, which names the button's entry again. */
  lemma CallbackRoundTrip(state: ConversationState, i: nat)
    requires i < |state.accounts|
    ensures Split(AccountsData(state.id, NatToString(i)), ':') == ["accounts", Key(state), NatToString(i)]
    ensures Index(state.accounts, NatToString(i)) == Some(i)
  {
    DigitsAvoid(NatToString(i), ':');
    AccountsDataSplits(state.id, NatToString(i));
    IndexOfButton(state.accounts, i);
  }

  /** The Back button's data splits the same way, with `back` as the choice. */
  lemma AccountsDataSplits(id: nat, choice: string)
    requires ':' !in choice
    ensures Split(AccountsData(id, choice), ':') == ["accounts", NatToString(id), choice]
  {
    var parts := ["accounts", NatToString(id), choice];
    DigitsAvoid(NatToString(id), ':');
    JoinThree(parts, ":");
    assert "accounts" + ":" == "accounts:";
    assert Join(parts, ":") == AccountsData(id, choice);
    SplitJoin(parts, ':');
  }

  /** The Yes button's data splits into `confirm` and the state's key. */
  lemma ConfirmDataSplits(id: nat)
    ensures Split(ConfirmData(id), ':') == ["confirm", NatToString(id)]
  {
    DigitsAvoid(NatToString(id), ':');
    SplitAround("confirm", NatToString(id), ':');
    assert "confirm" + [':'] == "confirm:";
  }

  // ----- Success message --------------------------------------------------------------

  /** `_format_success`: the operation and amount, the cash balance, and the bank balance
      when there is one, each on its own line. */
  function FormatSuccess(amount: string, account: string, cash: string, bank: string): (text: string)
    ensures "`\U{2705} " + account + "`: `" + amount + "`\n" <= text
    ensures text[|text| - 1] == '\n'
  {
    "`\U{2705} " + account + "`: `" + amount + "`" + "\n" + "Balance: " + cash + "\n" +
    (if bank != "" then "Bank: " + bank + "\n" else "")
  }

  /** The message has two lines, or three with a bank balance, each ended by a newline. */
  lemma FormatSuccessLines(amount: string, account: string, cash: string, bank: string)
    requires '\n' !in amount && '\n' !in account && '\n' !in cash && '\n' !in bank
    ensures var head := "`\U{2705} " + account + "`: `" + amount + "`";
      Split(FormatSuccess(amount, account, cash, bank), '\n') ==
        [head, "Balance: " + cash] + (if bank != "" then ["Bank: " + bank] else []) + [""]
  {
    var head := "`\U{2705} " + account + "`: `" + amount + "`";
    var lines := [head, "Balance: " + cash] + (if bank != "" then ["Bank: " + bank] else []) + [""];
    if bank != "" {
      JoinFour(lines, "\n");
    } else {
      JoinThree(lines, "\n");
    }
    assert Join(lines, "\n") == FormatSuccess(amount, account, cash, bank);
    SplitJoin(lines, '\n');
  }

  // ----- The user's settings ----------------------------------------------------------

  /** The file setting with every `%Y` replaced by the year and then every `%M` by the
      two-digit month. */
  function SubstituteDate(file: string, today: Beans.Date): (path: string)
    requires today.Valid()
    ensures !Contains(path, "%Y") && !Contains(path, "%M")
    ensures !Contains(file, "%Y") && !Contains(file, "%M") ==> path == file
  {
    var year, month := NatToString(today.year), Beans.TwoDigits(today.month);
    DigitsAvoid(year, '%');
    DigitsAvoid(year, 'Y');
    DigitsAvoid(year, 'M');
    DigitsAvoid(month, '%');
    DigitsAvoid(month, 'Y');
    DigitsAvoid(month, 'M');
    var withYear := Replace(file, "%Y", year);
    ReplaceLeavesNone(file, "%Y", year, "%Y");
    ReplaceLeavesNone(withYear, "%M", month, "%Y");
    ReplaceLeavesNone(withYear, "%M", month, "%M");
    assert !Contains(file, "%Y") && !Contains(file, "%M") ==> Replace(withYear, "%M", month) == file by {
      if !Contains(file, "%Y") && !Contains(file, "%M") {
        ReplaceAbsent(file, "%Y", year);
        ReplaceAbsent(file, "%M", month);
      }
    }
    Replace(withYear, "%M", month)
  }

  /** A path without directives is kept as it is. */
  lemma SubstitutePlain(a: string, today: Beans.Date)
    requires today.Valid() && '%' !in a
    ensures SubstituteDate(a, today) == a
  {
    var year, month := NatToString(today.year), Beans.TwoDigits(today.month);
    ReplaceSkip(a, "%Y", year, "");
    ReplaceSkip(a, "%M", month, "");
    assert a + "" == a;
  }

  /** `%Y` becomes the year in four digits (for the years `date.today()` gives). */
  lemma SubstituteYear(a: string, b: string, today: Beans.Date)
    requires today.Valid() && '%' !in a
    ensures SubstituteDate(a + "%Y" + b, today) == a + NatToString(today.year) + SubstituteDate(b, today)
    ensures |NatToString(today.year)| == 4
  {
    var year, month := NatToString(today.year), Beans.TwoDigits(today.month);
    Beans.FourDigitYear(today.year);
    DigitsAvoid(year, '%');
    var y := "%Y";
    assert a + y + b == a + (y + b);
    ReplaceSkip(a, y, year, y + b);
    ReplaceFront(y, year, b);
    var rb := Replace(b, y, year);
    assert a + (year + rb) == (a + year) + rb;
    ReplaceSkip(a + year, "%M", month, rb);
  }

  /** `%M` becomes the month in two digits. */
  lemma SubstituteMonth(a: string, b: string, today: Beans.Date)
    requires today.Valid() && '%' !in a
    ensures SubstituteDate(a + "%M" + b, today) == a + Beans.TwoDigits(today.month) + SubstituteDate(b, today)
  {
    var year, month := NatToString(today.year), Beans.TwoDigits(today.month);
    DigitsAvoid(month, '%');
    var y, m := "%Y", "%M";
    assert a + m + b == a + (m + b);
    ReplaceSkip(a, y, year, m + b);
    assert (m + b)[1] == 'M' && y[1] == 'Y';
    assert !(y <= m + b);
    assert (m + b)[1..] == "M" + b;
    ReplaceSkip("M", y, year, b);
    var rb := Replace(b, y, year);
    assert Replace(m + b, y, year) == m + rb;
    assert a + (m + rb) == a + m + rb;
    ReplaceSkip(a, m, month, m + rb);
    ReplaceFront(m, month, rb);
    assert a + (month + Replace(rb, m, month)) == a + month + Replace(rb, m, month);
  }

  /** The settings check runs on every update; substituting an already substituted path
      changes nothing. */
  lemma SubstituteDateIdempotent(file: string, today: Beans.Date)
    requires today.Valid()
    ensures SubstituteDate(SubstituteDate(file, today), today) == SubstituteDate(file, today)
  {
    var path := SubstituteDate(file, today);
    ReplaceAbsent(path, "%Y", NatToString(today.year));
    ReplaceAbsent(path, "%M", Beans.TwoDigits(today.month));
  }

  datatype ConfigOutcome = NoFile | NoAccount | NoWithdrawalAccount | ConfigOk

  /** `_handle_check_config`: stop without a file, rewrite the file's date directives,
      then stop without an account, then without a withdrawal account. */
  method HandleCheckConfig(ctx: Context, today: Beans.Date) returns (outcome: ConfigOutcome)
    requires today.Valid()
    modifies ctx`opts
    ensures !Config.Filled(Config.Get(old(ctx.opts), "file")) ==> outcome == NoFile && ctx.opts == old(ctx.opts)
    ensures Config.Filled(Config.Get(old(ctx.opts), "file")) ==>
      && ctx.opts == old(ctx.opts)["file" := SubstituteDate(old(ctx.opts)["file"], today)]
      && outcome == (if !Config.Filled(Config.Get(ctx.opts, "account")) then NoAccount
                     else if !Config.Filled(Config.Get(ctx.opts, "withdrawal_account")) then NoWithdrawalAccount
                     else ConfigOk)
  {
    if !Config.Filled(Config.Get(ctx.opts, "file")) {
      return NoFile;
    }
    var f := ctx.opts["file"];
    f := Replace(Replace(f, "%Y", NatToString(today.year)), "%M", Beans.TwoDigits(today.month));
    ctx.opts := ctx.opts["file" := f];
    if !Config.Filled(Config.Get(ctx.opts, "account")) {
      return NoAccount;
    }
    if !Config.Filled(Config.Get(ctx.opts, "withdrawal_account")) {
      return NoWithdrawalAccount;
    }
    return ConfigOk;
  }

  // ----- Committing -------------------------------------------------------------------

  /** The balances the ledger reports after an append. */
  datatype Balances = Balances(debit: string, credit: string)

  /** An exception raised on the way: one of the ledger's own errors, or any other. */
  datatype Fault = LedgerError(message: string) | OtherError(message: string)

  /** The calls to the synchroniser and the ledger, in the order they are made. */
  datatype SyncEvent =
    | Pull
    | Append(file: string, narration: string, expense: string, asset: string, amount: int)
    | Push(file: string, message: string)

  /** The asset account a transaction is committed with: its own, or the user's account
      when it has none (`None` where the user has no account setting and Python raises
      `KeyError`). */
  function Credit(asset: string, opts: map<string, string>): (credit: Option<string>)
    ensures asset != "" ==> credit == Some(asset)
    ensures asset == "" ==> (credit.Some? <==> "account" in opts) &&
                            (credit.Some? ==> credit.value == opts["account"])
  {
    if asset != "" then Some(asset)
    else if "account" in opts then Some(opts["account"])
    else None
  }

  /** The asset account a transaction holds after a commit: the credit account, once it
      is known. */
  function AssetAfter(asset: string, opts: map<string, string>): (after: string)
    ensures asset != "" ==> after == asset
    ensures asset == "" && "account" in opts ==> after == opts["account"]
    ensures asset == "" && "account" !in opts ==> after == ""
  {
    match Credit(asset, opts)
    case Some(c) => c
    case None => asset
  }

  /** What a commit returns: a `KeyError` for a missing setting, else what the ledger's
      append returned. */
  function CommitResult(asset: string, opts: map<string, string>, appended: Result<Balances, Fault>): (r: Result<Balances, Fault>)
    ensures "file" in opts && (asset != "" || "account" in opts) ==> r == appended
    ensures !("file" in opts && (asset != "" || "account" in opts)) ==> r == Failure(OtherError("KeyError"))
  {
    if Credit(asset, opts).None? || "file" !in opts then Failure(OtherError("KeyError")) else appended
  }

  /** The calls a commit makes: always a pull first; the append only once the credit
      account and the file are known; the push only after an append that succeeded. */
  function CommitEffects(opts: map<string, string>, narration: string, expense: string, asset: string,
                         amount: int, pushMessage: string, appended: Result<Balances, Fault>): (effects: seq<SyncEvent>)
    ensures 1 <= |effects| <= 3 && effects[0] == Pull
    ensures |effects| >= 2 <==> Credit(asset, opts).Some? && "file" in opts
    ensures |effects| >= 2 ==> effects[1] == Append(opts["file"], narration, expense, Credit(asset, opts).value, amount)
    ensures |effects| == 3 <==> CommitResult(asset, opts, appended).Success?
    ensures |effects| == 3 ==> effects[2] == Push(opts["file"], pushMessage)
  {
    var credit := Credit(asset, opts);
    if credit.None? || "file" !in opts then [Pull]
    else
      var file := opts["file"];
      [Pull, Append(file, narration, expense, credit.value, amount)] +
      (if appended.Success? then [Push(file, pushMessage)] else [])
  }

  /** `_commit_tx`: pull, give the transaction the user's account if it has no asset
      account, append it to the user's file, push, and remember the narration's account.
      `appended` is what the ledger's append returns. An exception ends the sequence. */
  method CommitTx(ctx: Context, tx: Beans.Transaction, pushMessage: string, appended: Result<Balances, Fault>)
    returns (effects: seq<SyncEvent>, r: Result<Balances, Fault>)
    modifies tx`assetAccount, ctx`narrations
    ensures effects == CommitEffects(ctx.opts, tx.narration, tx.expenseAccount, old(tx.assetAccount), tx.amount, pushMessage, appended)
    ensures r == CommitResult(old(tx.assetAccount), ctx.opts, appended)
    ensures tx.assetAccount == AssetAfter(old(tx.assetAccount), ctx.opts)
    ensures r.Success? ==> ctx.narrations == Some(old(ctx.StoredNarrations())[tx.narration := tx.expenseAccount])
    ensures r.Failure? ==> ctx.narrations == old(ctx.narrations)
  {
    effects := [Pull];
    if tx.assetAccount == "" {
      if "account" !in ctx.opts {
        return effects, Failure(OtherError("KeyError"));
      }
      tx.assetAccount := ctx.opts["account"];
    }
    if "file" !in ctx.opts {
      return effects, Failure(OtherError("KeyError"));
    }
    var file := ctx.opts["file"];
    effects := effects + [Append(file, tx.narration, tx.expenseAccount, tx.assetAccount, tx.amount)];
    if appended.Failure? {
      return effects, appended;
    }
    effects := effects + [Push(file, pushMessage)];
    ctx.SaveNarrationAccount(tx.narration, tx.expenseAccount);
    r := appended;
  }

  // ----- Handlers ---------------------------------------------------------------------

  /** What a handler answers, without the text of the answer. `Raised` is an exception
      that leaves the handler. */
  datatype Outcome =
    | NotUnderstood
    | UnknownAccount
    | InternalError
    | Committed(balances: Balances)
    | Failed
    | AskConfirm(account: string, buttons: seq<Button>)
    | Menu(buttons: seq<Button>)
    | Usage
    | InvalidAmount
    | Raised

  /** A commit inside `try: ... except Exception`. */
  function Caught(r: Result<Balances, Fault>): Outcome
  {
    match r
    case Success(b) => Committed(b)
    case Failure(_) => Failed
  }

  /** A commit inside `try: ... except beans.Error`: other exceptions leave the handler. */
  function CaughtLedger(r: Result<Balances, Fault>): Outcome
  {
    match r
    case Success(b) => Committed(b)
    case Failure(LedgerError(_)) => InternalError
    case Failure(OtherError(_)) => Raised
  }

  /** A commit outside any `try`. */
  function Uncaught(r: Result<Balances, Fault>): Outcome
  {
    match r
    case Success(b) => Committed(b)
    case Failure(_) => Raised
  }

  /** `text.endswith("!")` */
  predicate EndsWithBang(text: string)
  {
    |text| > 0 && text[|text| - 1] == '!'
  }

  /** `_handle_message`. `parsed` is what the message parser returns (`None` where it raises
      `ValueError`) and `catalog` the expense accounts (`None` where loading them raises the
      ledger's error). An account given in the message is committed at once if it exists
      and refused otherwise. Without one, the account remembered for the narration is
      used: at once when the message ends with `!`, after a yes/no question otherwise.
      Without that, a menu of the top-level accounts is offered. */
  method HandleMessage(ctx: Context, messageId: nat, text: string, parsed: Option<Beans.Transaction>,
                       catalog: Option<seq<string>>, appended: Result<Balances, Fault>)
    returns (outcome: Outcome, effects: seq<SyncEvent>)
    modifies ctx`states, ctx`narrations, if parsed.Some? then {parsed.value} else {}
    ensures parsed.Some? ==>
      && parsed.value.narration == old(parsed.value.narration)
      && parsed.value.amount == old(parsed.value.amount)
      && parsed.value.tags == old(parsed.value.tags)
    ensures parsed.None? ==>
      outcome == NotUnderstood && effects == [] && ctx.states == old(ctx.states) && ctx.narrations == old(ctx.narrations)
    ensures parsed.Some? && old(parsed.value.expenseAccount) != "" ==>
      var tx := parsed.value;
      var expense := old(tx.expenseAccount);
      && ctx.states == old(ctx.states)
      && tx.expenseAccount == expense
      && (catalog.None? || expense !in catalog.value ==>
            && outcome == (if catalog.None? then InternalError else UnknownAccount)
            && effects == [] && ctx.narrations == old(ctx.narrations)
            && tx.assetAccount == old(tx.assetAccount))
      && (catalog.Some? && expense in catalog.value ==>
            && effects == CommitEffects(ctx.opts, tx.narration, expense, old(tx.assetAccount), tx.amount, "", appended)
            && outcome == CaughtLedger(CommitResult(old(tx.assetAccount), ctx.opts, appended))
            && tx.assetAccount == AssetAfter(old(tx.assetAccount), ctx.opts)
            && ctx.narrations == Some(old(ctx.StoredNarrations())[tx.narration := expense]))
    ensures parsed.Some? && old(parsed.value.expenseAccount) == "" && catalog.None? ==>
      && outcome == InternalError && effects == [] && ctx.states == old(ctx.states) && ctx.narrations == old(ctx.narrations)
      && parsed.value.expenseAccount == "" && parsed.value.assetAccount == old(parsed.value.assetAccount)
    ensures parsed.Some? && old(parsed.value.expenseAccount) == "" && catalog.Some? ==>
      var tx := parsed.value;
      var remembered := old(ctx.GetNarrationAccount(tx.narration));
      var known := remembered.Some? && remembered.value != "";
      var key := NatToString(messageId);
      && (known ==> tx.expenseAccount == remembered.value)
      && (!known ==> tx.expenseAccount == "")
      && (known && EndsWithBang(text) ==>
            && ctx.states == old(ctx.states)
            && effects == CommitEffects(ctx.opts, tx.narration, remembered.value, old(tx.assetAccount), tx.amount, "", appended)
            && outcome == Uncaught(CommitResult(old(tx.assetAccount), ctx.opts, appended))
            && tx.assetAccount == AssetAfter(old(tx.assetAccount), ctx.opts)
            && ctx.narrations == if CommitResult(old(tx.assetAccount), ctx.opts, appended).Success?
                                 then Some(old(ctx.StoredNarrations())[tx.narration := remembered.value])
                                 else old(ctx.narrations))
      && (!known || !EndsWithBang(text) ==>
            && effects == [] && ctx.narrations == old(ctx.narrations)
            && tx.assetAccount == old(tx.assetAccount)
            && outcome == (if known then AskConfirm(remembered.value,
                                           [Button("No", AccountsData(messageId, "back")), Button("Yes", ConfirmData(messageId))])
                           else Menu(Buttons(messageId, "", OptionsForPath(catalog.value, ""))))
            && ctx.GetState(key).Some? && fresh(ctx.GetState(key).value)
            && ctx.GetState(key).value.tx == tx
            && ctx.GetState(key).value.currentPath == ""
            && ctx.GetState(key).value.accounts == OptionsForPath(catalog.value, "")
            && forall k :: k != key ==> ctx.GetState(k) == old(ctx.GetState(k)))
  {
    effects := [];
    if parsed.None? {
      return NotUnderstood, effects;
    }
    var tx := parsed.value;
    if tx.expenseAccount != "" {
      if catalog.None? {
        return InternalError, effects;
      }
      if tx.expenseAccount in catalog.value {
        ctx.SaveNarrationAccount(tx.narration, tx.expenseAccount);
        assert ctx.StoredNarrations()[tx.narration := tx.expenseAccount] == ctx.StoredNarrations();
        var r;
        effects, r := CommitTx(ctx, tx, "", appended);
        return CaughtLedger(r), effects;
      }
      return UnknownAccount, effects;
    }
    if catalog.None? {
      return InternalError, effects;
    }
    var state := new ConversationState(messageId, OptionsForPath(catalog.value, ""), "", tx);
    var acct := ctx.GetNarrationAccount(tx.narration);
    if acct.Some? && acct.value != "" {
      tx.expenseAccount := acct.value;
      if EndsWithBang(text) {
        var r;
        effects, r := CommitTx(ctx, tx, "", appended);
        return Uncaught(r), effects;
      }
      ctx.SaveState(state);
      return AskConfirm(acct.value, [Button("No", AccountsData(state.id, "back")), Button("Yes", ConfirmData(state.id))]), effects;
    }
    ctx.SaveState(state);
    var btns := GetBtns(state);
    return Menu(btns), effects;
  }

  /** The objects the account callback may change besides the context: the state its data
      names and that state's transaction, and nothing when the data has fewer than three
      fields or names no state. */
  ghost function AccountFrame(ctx: Context, data: string): set<object>
    reads ctx`states
  {
    var parts := Split(data, ':');
    if |parts| >= 3 && ctx.GetState(parts[1]).Some? then
      {ctx.GetState(parts[1]).value, ctx.GetState(parts[1]).value.tx}
    else {}
  }

  /** The transaction the confirm callback may change: the one of the state its data names. */
  ghost function ConfirmFrame(ctx: Context, data: string): set<object>
    reads ctx`states
  {
    var parts := Split(data, ':');
    if |parts| >= 2 && ctx.GetState(parts[1]).Some? then {ctx.GetState(parts[1]).value.tx} else {}
  }

  /** `_handle_account_callback`, for callback data `accounts:<key>:<choice>`: find the
      state, move its path back or down, and either commit the transaction when the path
      is an expense account or show the menu for the new path. The state that is found is
      changed in place, so a step that fails halfway leaves its change behind. On success
      the state is deleted under the choice (`data[2]`), as written, not under its key.
      The new menu is the corrected `OptionsForPath`, not `OptionsForPathAsWritten`.
      `Failed` is the `except` clause: it reports the error to the user and then raises
      itself, because it calls the message's `reply_markup` attribute, which is not a
      method. */
  method HandleAccountCallback(ctx: Context, data: string, catalog: Option<seq<string>>, appended: Result<Balances, Fault>)
    returns (outcome: Outcome, effects: seq<SyncEvent>)
    modifies ctx`states, ctx`narrations, AccountFrame(ctx, data)
    ensures var parts := Split(data, ':');
      |parts| < 3 || old(ctx.GetState(parts[1])).None? ==>
        outcome == Failed && effects == [] && ctx.states == old(ctx.states) && ctx.narrations == old(ctx.narrations)
    ensures var parts := Split(data, ':');
      |parts| >= 3 && old(ctx.GetState(parts[1])).Some? ==>
        var state := old(ctx.GetState(parts[1])).value;
        var tx := state.tx;
        var step := Transition(old(state.currentPath), old(state.accounts), parts[2]);
        var resolved := parts[2] != "back" && step.ok && catalog.Some? && step.path in catalog.value;
        && state.currentPath == step.path
        && tx.narration == old(tx.narration) && tx.amount == old(tx.amount) && tx.tags == old(tx.tags)
        && (!resolved ==>
              && tx.expenseAccount == old(tx.expenseAccount) && tx.assetAccount == old(tx.assetAccount)
              && ctx.states == old(ctx.states) && ctx.narrations == old(ctx.narrations) && effects == [])
        && (!step.ok || catalog.None? ==> outcome == Failed && state.accounts == old(state.accounts))
        && (step.ok && catalog.Some? && !resolved ==>
              && state.accounts == OptionsForPath(catalog.value, step.path)
              && outcome == Menu(Buttons(state.id, step.path, state.accounts)))
        && (resolved ==>
              && state.accounts == old(state.accounts)
              && tx.expenseAccount == step.path
              && tx.assetAccount == AssetAfter(old(tx.assetAccount), ctx.opts)
              && ctx.GetState(parts[2]).None?
              && (forall k :: k != parts[2] ==> ctx.GetState(k) == old(ctx.GetState(k)))
              && effects == CommitEffects(ctx.opts, tx.narration, step.path, old(tx.assetAccount), tx.amount, "", appended)
              && outcome == Caught(CommitResult(old(tx.assetAccount), ctx.opts, appended))
              && ctx.narrations == Some(old(ctx.StoredNarrations())[tx.narration := step.path]))
  {
    effects := [];
    var parts := Split(data, ':');
    if |parts| < 2 {
      return Failed, effects;
    }
    var found := ctx.GetState(parts[1]);
    if found.None? || |parts| < 3 {
      return Failed, effects;
    }
    var state := found.value;
    if parts[2] == "back" {
      state.currentPath := PathBack(state.currentPath);
    } else {
      if state.currentPath != "" {
        state.currentPath := state.currentPath + ":";
      }
      var i := Index(state.accounts, parts[2]);
      if i.None? {
        return Failed, effects;
      }
      state.currentPath := state.currentPath + state.accounts[i.value];
      if catalog.None? {
        return Failed, effects;
      }
      if state.currentPath in catalog.value {
        state.tx.expenseAccount := state.currentPath;
        ctx.DeleteState(parts[2]);
        ctx.SaveNarrationAccount(state.tx.narration, state.tx.expenseAccount);
        assert ctx.StoredNarrations()[state.tx.narration := state.tx.expenseAccount] == ctx.StoredNarrations();
        var r;
        effects, r := CommitTx(ctx, state.tx, "", appended);
        return Caught(r), effects;
      }
    }
    if catalog.None? {
      return Failed, effects;
    }
    state.accounts := OptionsForPath(catalog.value, state.currentPath);
    var btns := GetBtns(state);
    return Menu(btns), effects;
  }

  /** `_handle_confirm_callback`, for callback data `confirm:<key>`: delete the state and
      commit its transaction with the account it already holds. Data without a key leaves
      `state` unbound, and the handler's own `except` then raises. */
  method HandleConfirmCallback(ctx: Context, data: string, appended: Result<Balances, Fault>)
    returns (outcome: Outcome, effects: seq<SyncEvent>)
    modifies ctx`states, ctx`narrations, ConfirmFrame(ctx, data)
    ensures var parts := Split(data, ':');
      |parts| < 2 || old(ctx.GetState(parts[1])).None? ==>
        && outcome == (if |parts| < 2 then Raised else Failed)
        && effects == [] && ctx.states == old(ctx.states) && ctx.narrations == old(ctx.narrations)
    ensures var parts := Split(data, ':');
      |parts| >= 2 && old(ctx.GetState(parts[1])).Some? ==>
        var tx := old(ctx.GetState(parts[1])).value.tx;
        var r := CommitResult(old(tx.assetAccount), ctx.opts, appended);
        && ctx.GetState(parts[1]).None?
        && (forall k :: k != parts[1] ==> ctx.GetState(k) == old(ctx.GetState(k)))
        && tx.narration == old(tx.narration) && tx.amount == old(tx.amount) && tx.tags == old(tx.tags)
        && tx.expenseAccount == old(tx.expenseAccount)
        && tx.assetAccount == AssetAfter(old(tx.assetAccount), ctx.opts)
        && effects == CommitEffects(ctx.opts, tx.narration, tx.expenseAccount, old(tx.assetAccount), tx.amount, "", appended)
        && outcome == Caught(r)
        && ctx.narrations == if r.Success? then Some(old(ctx.StoredNarrations())[tx.narration := tx.expenseAccount])
                             else old(ctx.narrations)
  {
    effects := [];
    var parts := Split(data, ':');
    if |parts| < 2 {
      return Raised, effects;
    }
    var found := ctx.GetState(parts[1]);
    if found.None? {
      return Failed, effects;
    }
    var state := found.value;
    ctx.DeleteState(parts[1]);
    var r;
    effects, r := CommitTx(ctx, state.tx, "", appended);
    return Caught(r), effects;
  }

  /** `_handle_withdraw`: exactly one argument, a positive amount, then a transaction named
      `Withdrawal` from the withdrawal account (its asset side) to the user's account (its
      expense side), committed. A missing setting raises before the `try`. `txId` stands
      for the random id a new transaction gets. */
  method HandleWithdraw(ctx: Context, args: seq<string>, txId: nat, appended: Result<Balances, Fault>)
    returns (outcome: Outcome, effects: seq<SyncEvent>)
    modifies ctx`narrations
    ensures |args| != 1 ==> outcome == Usage
    ensures |args| == 1 && Bot.ParseAmount(args[0]) == 0 ==> outcome == InvalidAmount
    ensures |args| == 1 && Bot.ParseAmount(args[0]) > 0 ==>
      ("withdrawal_account" !in ctx.opts || "account" !in ctx.opts ==> outcome == Raised)
    ensures outcome in {Usage, InvalidAmount, Raised} ==> effects == [] && ctx.narrations == old(ctx.narrations)
    ensures |args| == 1 && Bot.ParseAmount(args[0]) > 0 &&
            "withdrawal_account" in ctx.opts && "account" in ctx.opts ==>
      var credit, debit := ctx.opts["withdrawal_account"], ctx.opts["account"];
      && effects == CommitEffects(ctx.opts, "Withdrawal", debit, credit, Bot.ParseAmount(args[0]), "", appended)
      && outcome == Caught(CommitResult(credit, ctx.opts, appended))
      && ctx.narrations == if outcome.Committed? then Some(old(ctx.StoredNarrations())["Withdrawal" := debit])
                           else old(ctx.narrations)
  {
    effects := [];
    if |args| != 1 {
      return Usage, effects;
    }
    var amount := Bot.ParseAmount(args[0]);
    if amount <= 0 {
      return InvalidAmount, effects;
    }
    if "withdrawal_account" !in ctx.opts || "account" !in ctx.opts {
      return Raised, effects;
    }
    var tx := new Beans.Transaction("Withdrawal", ctx.opts["account"], ctx.opts["withdrawal_account"], amount, [], txId);
    var r;
    effects, r := CommitTx(ctx, tx, "", appended);
    return Caught(r), effects;
  }
}

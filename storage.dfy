/** The bot's per-chat and per-user memory: the selection states of the conversations in
    a chat (`chat_data["states"]`, keyed by the id of the message that started each one),
    the account last used with each narration (`user_data["narrations"]`), and the user's
    settings (`user_data["opts"]`). Both maps are created on first write, so each is
    `None` until then. */
module Storage {
  import opened Wrappers
  import opened Text
  import Beans

  /** The state of one account selection. The handlers change the path, the options and
      the transaction in place, on the object the store holds. */
  class ConversationState {
    const id: nat
    var accounts: seq<string>
    var currentPath: string
    const tx: Beans.Transaction

    constructor (id: nat, accounts: seq<string>, currentPath: string, tx: Beans.Transaction)
      ensures this.id == id && this.accounts == accounts
      ensures this.currentPath == currentPath && this.tx == tx
    {
      this.id := id;
      this.accounts := accounts;
      this.currentPath := currentPath;
      this.tx := tx;
    }
  }

  /** `str(c.id)`: the key a state is stored under. */
  function Key(c: ConversationState): string
  {
    NatToString(c.id)
  }

  /** Distinct message ids give distinct keys, so one conversation never overwrites
      another's state. */
  lemma KeyInjective(a: ConversationState, b: ConversationState)
    requires Key(a) == Key(b)
    ensures a.id == b.id
  {
    NatToStringRoundTrip(a.id);
    NatToStringRoundTrip(b.id);
  }

  class Context {
    var states: Option<map<string, ConversationState>>
    var narrations: Option<map<string, string>>
    var opts: map<string, string>

    constructor (opts: map<string, string>)
      ensures states == None && narrations == None && this.opts == opts
    {
      states := None;
      narrations := None;
      this.opts := opts;
    }

    /** Every state is stored under its own key. */
    ghost predicate KeysMatch()
      reads this`states
    {
      states.Some? ==> forall k :: k in states.value ==> k == Key(states.value[k])
    }

    function StoredStates(): map<string, ConversationState>
      reads this`states
    {
      if states.None? then map[] else states.value
    }

    /** `get_state`: the state stored under `cid`, or `None` when there is no state map
        yet or nothing under that key. */
    function GetState(cid: string): (s: Option<ConversationState>)
      reads this`states
      ensures s.Some? <==> states.Some? && cid in states.value
      ensures s.Some? ==> s.value == states.value[cid]
    {
      if cid in StoredStates() then Some(StoredStates()[cid]) else None
    }

    /** `save_state`: store `c` under its key, creating the map if needed, replacing any
        state with the same id and leaving every other key as it was. */
    method SaveState(c: ConversationState)
      modifies this`states
      ensures states == Some(old(StoredStates())[Key(c) := c])
      ensures GetState(Key(c)) == Some(c)
      ensures forall k :: k != Key(c) ==> GetState(k) == old(GetState(k))
      ensures old(KeysMatch()) ==> KeysMatch()
    {
      var data := StoredStates();
      states := Some(data[Key(c) := c]);
    }

    /** `pop_state`: hand out the state stored under `cid` and remove it; without a map or
        without the key, `None` and no change. */
    method PopState(cid: string) returns (s: Option<ConversationState>)
      modifies this`states
      ensures s == old(GetState(cid))
      ensures GetState(cid) == None
      ensures forall k :: k != cid ==> GetState(k) == old(GetState(k))
      ensures s.None? ==> states == old(states)
      ensures old(KeysMatch()) ==> KeysMatch()
    {
      if states.None? || cid !in states.value {
        return None;
      }
      s := Some(states.value[cid]);
      states := Some(states.value - {cid});
    }

    /** `delete_state`: remove the state stored under `cid`; without a map or without the
        key, no change. */
    method DeleteState(cid: string)
      modifies this`states
      ensures GetState(cid) == None
      ensures forall k :: k != cid ==> GetState(k) == old(GetState(k))
      ensures old(GetState(cid)).None? ==> states == old(states)
      ensures old(KeysMatch()) ==> KeysMatch()
    {
      if states.Some? && cid in states.value {
        states := Some(states.value - {cid});
      }
    }

    function StoredNarrations(): map<string, string>
      reads this`narrations
    {
      if narrations.None? then map[] else narrations.value
    }

    /** `get_narration_account`: the account last used with `narration`; `""` while no
        account was ever remembered, and `None` for a narration not seen since. */
    function GetNarrationAccount(narration: string): (account: Option<string>)
      reads this`narrations
      ensures narrations.None? ==> account == Some("")
      ensures narrations.Some? ==>
        (account.Some? <==> narration in narrations.value) &&
        (account.Some? ==> account.value == narrations.value[narration])
    {
      if narrations.None? then Some("")
      else if narration in narrations.value then Some(narrations.value[narration])
      else None
    }

    /** `save_narration_account`: remember `account` for `narration`, replacing what was
        remembered before; other narrations keep theirs. */
    method SaveNarrationAccount(narration: string, account: string)
      modifies this`narrations
      ensures narrations == Some(old(StoredNarrations())[narration := account])
      ensures GetNarrationAccount(narration) == Some(account)
      ensures forall n :: n != narration && old(narrations).Some? ==>
        GetNarrationAccount(n) == old(GetNarrationAccount(n))
    {
      var data := StoredNarrations();
      narrations := Some(data[narration := account]);
    }
  }

  /** Two saves for one narration: the second account is the one remembered, and the
      selection states are not touched. */
  method SaveNarrationTwice(ctx: Context, narration: string, first: string, second: string)
    modifies ctx`narrations
    ensures ctx.GetNarrationAccount(narration) == Some(second)
    ensures ctx.states == old(ctx.states)
  {
    ctx.SaveNarrationAccount(narration, first);
    ctx.SaveNarrationAccount(narration, second);
  }
}

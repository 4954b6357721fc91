/**
  The panel's state as the object a transaction edits (panel/store.go,
  panel/handlers.go), each edit proved to make of it what `Panel.Decide` says.
 */
module PanelState {
  import opened Wrappers
  import opened Times
  import opened Credentials
  import opened Strings
  import opened Panel

  lemma LastShareAppend(shares: seq<Share>, sh: Share, id: string)
    ensures LastShare(shares + [sh], id) == if sh.id == id then |shares| else LastShare(shares, id)
  {
    assert (shares + [sh])[..|shares|] == shares;
  }

  lemma NothingToRevoke(id: string)
    ensures Without([], Revoked(id)) == [] && LastShare([], id) == -1
  {
  }

  /**
    Revoking compacts the shares in place: kept ones move down, and `removed` goes on
    pointing at the slot of the revoked one, whatever has been moved into it.
   */
  method RevokeInPlace(a: array<Share>, id: string) returns (n: nat, removed: int)
    modifies a
    ensures n <= a.Length && a[..n] == Without(old(a[..]), Revoked(id))
    ensures removed == LastShare(old(a[..]), id)
    ensures removed >= 0 ==> a[removed] == SlotAfterRevoke(old(a[..]), id)
  {
    hide Without, LastShare;
    n, removed := 0, -1;
    ghost var was := a[..];
    var i := 0;
    NothingToRevoke(id);
    assert was[..0] == [];
    while i < a.Length
      invariant n <= i <= a.Length
      invariant a[..n] == Without(was[..i], Revoked(id))
      invariant removed < i
      invariant forall j :: n <= j < a.Length ==> a[j] == was[j]
      invariant removed == LastShare(was[..i], id)
    {
      assert was[..i + 1] == was[..i] + [was[i]];
      WithoutAppend(was[..i], was[i], Revoked(id));
      LastShareAppend(was[..i], was[i], id);
      if a[i].id == id {
        removed := i;
      } else {
        a[n] := a[i];
        n := n + 1;
      }
      i := i + 1;
    }
    assert was[..i] == was;
  }

  /** The account as a newer sign-in leaves it; the same sign-in, or an older copy of it, is refused. */
  method RefreshLogin(held: Account, op: Op) returns (r: Result<Account, Refusal>)
    requires op.Contribute?
    ensures r == Refreshing(held, op.email, op.plan, op.blob, op.personId)
  {
    if held.credential.Some? && SignInEnd(held.credential.value) > 0 {
      if SignInEnd(op.blob) > 0 && SignInEnd(op.blob) <= SignInEnd(held.credential.value) {
        return Err(SameSignIn);
      }
    }
    var a := held.(credential := Some(op.blob));
    if Trim(op.email) != "" {
      a := a.(email := Trim(op.email));
    }
    if Trim(op.plan) != "" {
      a := a.(plan := Trim(op.plan));
    }
    if a.addedBy == "" {
      a := a.(addedBy := op.personId);
    }
    return Ok(a);
  }

  class State {
    var people: seq<Person>
    var devices: seq<Device>
    var accounts: seq<Account>
    var joinCodes: seq<JoinCode>
    var shares: seq<Share>
    var activity: seq<Event>

    function Value(): Data
      reads this
    {
      Data(people, devices, accounts, joinCodes, shares, activity)
    }

    constructor (d: Data)
      ensures Value() == d
    {
      people, devices, accounts := d.people, d.devices, d.accounts;
      joinCodes, shares, activity := d.joinCodes, d.shares, d.activity;
    }

    method Log(at: Instant, who: string, what: Note)
      modifies this`activity
      ensures Value() == Logged(old(Value()), at, who, what)
    {
      activity := activity + [Event(at, who, what)];
    }

    /** Drops the shares whose time has run out, with a line for each. */
    method ExpireShares(now: Instant)
      modifies this`shares, this`activity
      ensures Value() == Panel.ExpireShares(old(Value()), now)
    {
      ghost var d := Value();
      var kept: seq<Share> := [];
      var i := 0;
      while i < |shares|
        invariant 0 <= i <= |shares| && shares == d.shares
        invariant kept == Without(shares[..i], Expired(now))
        invariant activity == d.activity + ExpiryNotes(d, shares[..i], now)
      {
        var sh := shares[i];
        assert shares[..i + 1] == shares[..i] + [sh];
        WithoutAppend(shares[..i], sh, Expired(now));
        ExpiryNotesAppend(d, shares[..i], sh, now);
        if Live(sh, now) {
          kept := kept + [sh];
        } else {
          assert PersonName(Value(), sh.personId) == PersonName(d, sh.personId);
          Log(now, "clawdh", Ended(PersonName(Value(), sh.personId), AccountName(Value(), sh.accountId), sh.grantedBy));
        }
        i := i + 1;
      }
      assert shares[..i] == shares;
      shares := kept;
    }

    /** The shares a cut leaves, collected the way every removal in the panel does it. */
    method Kept(cut: Cut) returns (out: seq<Share>)
      ensures out == Without(shares, cut)
    {
      out := [];
      var i := 0;
      while i < |shares|
        invariant 0 <= i <= |shares| && out == Without(shares[..i], cut)
      {
        assert shares[..i + 1] == shares[..i] + [shares[i]];
        WithoutAppend(shares[..i], shares[i], cut);
        if !Cuts(cut, shares[i]) {
          out := out + [shares[i]];
        }
        i := i + 1;
      }
      assert shares[..i] == shares;
    }

    /** Records a share in place of any the person already has on the account. */
    method PutShare(sh: Share)
      modifies this`shares
      ensures shares == Panel.PutShare(old(shares), sh)
      ensures forall x :: x in shares <==> x == sh || (x in old(shares) && !(x.accountId == sh.accountId && x.personId == sh.personId))
    {
      WithoutMembers(shares, Replaced(sh.accountId, sh.personId));
      var out := Kept(Replaced(sh.accountId, sh.personId));
      shares := out + [sh];
    }

    method RevokeShare(id: string, now: Instant, who: string)
      modifies this`shares, this`activity
      ensures Ok(Value()) == Decide(old(Value()), Revoke(id, who), now)
    {
      var a := new Share[|shares|](i requires 0 <= i < |shares| reads this => shares[i]);
      assert a[..] == shares;
      var n, removed := RevokeInPlace(a, id);
      if removed < 0 {
        return;
      }
      shares := a[..n];
      Log(now, who, Took(PersonName(Value(), a[removed].personId), AccountName(Value(), a[removed].accountId)));
    }

    /** Drops an account and every share on it. */
    method RemoveAccount(id: string) returns (found: bool)
      modifies this`shares, this`accounts
      ensures found <==> FindAccount(old(accounts), id) >= 0
      ensures Value() == if found then WithoutAccount(old(Value()), id) else old(Value())
    {
      if FindAccount(accounts, id) < 0 {
        return false;
      }
      var kept := Kept(AccountGone(id));
      shares := kept;
      var out: seq<Account> := [];
      var i := |accounts|;
      while i > 0
        invariant 0 <= i <= |accounts| && out == AccountsWithout(accounts[i..], id)
      {
        i := i - 1;
        assert accounts[i..][1..] == accounts[i + 1..];
        if accounts[i].id != id {
          out := [accounts[i]] + out;
        }
      }
      assert accounts[0..] == accounts;
      accounts := out;
      return true;
    }

    /** Drops a person with their shares and machines, so their access ends everywhere at once. */
    method RemovePerson(id: string, now: Instant, who: string) returns (r: Result<(), Refusal>)
      modifies this`people, this`devices, this`shares, this`activity
      ensures var spec := Decide(old(Value()), Panel.RemovePerson(id, who), now);
              && (r.Ok? <==> spec.Ok?)
              && (r.Ok? ==> spec == Ok(Value()))
              && (r.Err? ==> spec == Err(r.error) && Value() == old(Value()))
    {
      var k := FindPerson(people, id);
      if k < 0 {
        return Err(NoSuchPerson);
      }
      var name := people[k].name;
      shares := Kept(PersonGone(id));
      var machines: seq<Device> := [];
      var i := |devices|;
      while i > 0
        invariant 0 <= i <= |devices| && machines == DevicesOfOthers(devices[i..], id)
      {
        i := i - 1;
        assert devices[i..][1..] == devices[i + 1..];
        if devices[i].personId != id {
          machines := [devices[i]] + machines;
        }
      }
      assert devices[0..] == devices;
      devices := machines;
      var others: seq<Person> := [];
      i := |people|;
      while i > 0
        invariant 0 <= i <= |people| && others == PeopleWithout(people[i..], id)
      {
        i := i - 1;
        assert people[i..][1..] == people[i + 1..];
        if people[i].id != id {
          others := [people[i]] + others;
        }
      }
      assert people[0..] == people;
      people := others;
      Log(now, who, Removed(name));
      return Ok(());
    }

    /** Enrols a machine with a join code that is ours, unused and in time. */
    method Enrol(codeHash: string, deviceId: string, machine: string, tokenHash: string, now: Instant)
      returns (r: Result<(), Refusal>)
      modifies this`joinCodes, this`devices, this`activity
      ensures var spec := Decide(old(Value()), Panel.Enrol(codeHash, deviceId, machine, tokenHash), now);
              && (r.Ok? <==> spec.Ok?)
              && (r.Ok? ==> spec == Ok(Value()))
              && (r.Err? ==> spec == Err(r.error) && Value() == old(Value()))
    {
      ghost var d := Value();
      var i := 0;
      while i < |joinCodes|
        invariant 0 <= i <= |joinCodes| && Value() == d
        invariant forall j :: 0 <= j < i ==> joinCodes[j].codeHash != codeHash
      {
        var c := joinCodes[i];
        if c.codeHash == codeHash {
          assert FindCode(joinCodes, codeHash) == i;
          if c.usedAt != ZERO_TIME {
            return Err(CodeUsed);
          }
          if c.expiresAt < now {
            return Err(CodeExpired);
          }
          joinCodes := joinCodes[i := c.(usedAt := now)];
          devices := devices + [Device(deviceId, c.personId, machine, tokenHash, now, now)];
          Log(now, PersonName(Value(), c.personId), SetUp(machine));
          return Ok(());
        }
        i := i + 1;
      }
      return Err(NoSuchCode);
    }

    /** Gives a person access to an account, in place of any they had. */
    method IssueShare(op: Op, now: Instant) returns (r: Result<(), Refusal>)
      requires op.Issue?
      modifies this`shares, this`activity
      ensures var spec := Decide(old(Value()), op, now);
              && (r.Ok? <==> spec.Ok?)
              && (r.Ok? ==> spec == Ok(Value()))
              && (r.Err? ==> spec == Err(r.error) && Value() == old(Value()))
      ensures r.Ok? <==> (exists a <- accounts :: a.id == op.accountId) && exists p <- people :: p.id == op.personId
      ensures r.Ok? ==>
                Share(op.shareId, op.accountId, op.personId, op.keyHash, now, if op.duration > 0 then now + op.duration else ZERO_TIME, op.who) in shares
    {
      assert FindAccount(accounts, op.accountId) >= 0 ==> accounts[FindAccount(accounts, op.accountId)] in accounts;
      assert FindPerson(people, op.personId) >= 0 ==> people[FindPerson(people, op.personId)] in people;
      if FindAccount(accounts, op.accountId) < 0 {
        return Err(NoSuchAccount);
      }
      if FindPerson(people, op.personId) < 0 {
        return Err(NoSuchPerson);
      }
      var sh := Share(op.shareId, op.accountId, op.personId, op.keyHash, now, ZERO_TIME, op.who);
      var what := Gave(PersonName(Value(), op.personId), AccountName(Value(), op.accountId), 0);
      if op.duration > 0 {
        sh := sh.(expiresAt := now + op.duration);
        what := what.(duration := op.duration);
      }
      PutShare(sh);
      Log(now, op.who, what);
      return Ok(());
    }

    /** Takes a login a member's machine hands up: a new account, or a newer sign-in for one held. */
    method TakeLogin(op: Op, now: Instant) returns (r: Result<string, Refusal>)
      requires op.Contribute?
      modifies this`accounts, this`activity
      ensures var spec := Panel.TakeLogin(old(Value()), op.email, op.name, op.plan, op.blob, op.accountId, op.personId, now);
              && (r.Ok? <==> spec.Ok?)
              && (r.Ok? ==> spec == Ok((Value(), r.value)))
              && (r.Err? ==> spec == Err(r.error) && Value() == old(Value()))
    {
      hide Refreshing, AccountByLogin, Trim;
      var who := PersonName(Value(), op.personId);
      var i := AccountByLogin(Value(), op.email, op.name);
      if i < 0 {
        accounts := accounts + [Account(op.accountId, op.name, Trim(op.email), Trim(op.plan), now, Some(op.blob), op.personId)];
        Log(now, who, Added(op.name));
        return Ok(op.accountId);
      }
      var a := RefreshLogin(accounts[i], op);
      if a.Err? {
        return Err(a.error);
      }
      accounts := accounts[i := a.value];
      Log(now, who, Refreshed(a.value.name));
      return Ok(a.value.id);
    }

    /** Takes the login and gives its contributor access to it. */
    method Contribute(op: Op, now: Instant) returns (r: Result<(), Refusal>)
      requires op.Contribute?
      modifies this`accounts, this`shares, this`activity
      ensures var spec := Decide(old(Value()), op, now);
              && (r.Ok? <==> spec.Ok?)
              && (r.Ok? ==> spec == Ok(Value()))
              && (r.Err? ==> spec == Err(r.error) && Value() == old(Value()))
    {
      hide Panel.TakeLogin, AccountByLogin, Trim;
      var taken := TakeLogin(op, now);
      if taken.Err? {
        return Err(taken.error);
      }
      if !HasShare(shares, taken.value, op.personId) {
        PutShare(Share(op.shareId, taken.value, op.personId, op.keyHash, now, ZERO_TIME, PersonName(Value(), op.personId)));
      }
      return Ok(());
    }

    /** Rolls a stored login forward, unless a newer one is held. */
    method StoreCredential(accountId: string, rotated: Credential, now: Instant)
      modifies this`accounts
      ensures Ok(Value()) == Decide(old(Value()), Panel.StoreCredential(accountId, rotated), now)
    {
      var i := FindAccount(accounts, accountId);
      if i < 0 || accounts[i].credential.None? {
        return;
      }
      var raw := accounts[i].credential.value;
      if rotated.expires < ParseCredential(raw).expires {
        assert accounts[i := accounts[i].(credential := Some(raw))] == accounts;
        return;
      }
      accounts := accounts[i := accounts[i].(credential := Some(UpdateCredential(raw, rotated)))];
    }
  }
}

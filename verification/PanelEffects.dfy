/**
  What each panel decision does for the one who asks (panel/store.go, panel/handlers.go): a
  key that is issued opens its account until it ends, an invitation enrols its machine, what
  is removed is gone, and when a decision is refused.
 */
module PanelEffects {
  import opened Wrappers
  import opened Times
  import opened Credentials
  import opened Strings
  import opened Panel
  import opened PanelInvariants

  // ------------------------------------------------------------ keys that open something

  /** The share a key stands for, at every instant: until its end if it has one. */
  ghost predicate Opens(shares: seq<Share>, sh: Share) {
    && sh in shares
    && (forall at :: sh.expiresAt == ZERO_TIME || at < sh.expiresAt ==> ShareByKeyHashAt(shares, sh.keyHash, at) == Some(sh))
    && (forall at :: sh.expiresAt != ZERO_TIME && sh.expiresAt <= at ==> ShareByKeyHashAt(shares, sh.keyHash, at) == None)
  }

  lemma OneKeyOpens(shares: seq<Share>, sh: Share)
    requires sh in shares && forall x <- shares :: x.keyHash == sh.keyHash ==> x == sh
    ensures Opens(shares, sh)
  {
  }

  lemma DistinctKeysOpen(shares: seq<Share>, sh: Share)
    requires DistinctKeys(shares) && sh in shares
    ensures Opens(shares, sh)
  {
    forall x <- shares | x.keyHash == sh.keyHash ensures x == sh {
      SameKeySameShare(shares, x, sh);
    }
    OneKeyOpens(shares, sh);
  }

  /** A committed issue puts in the share it mints, for the time it was given for. */
  lemma AnIssuedKeyOpens(d: Data, t: Txn)
    requires Consistent(d) && BringsFresh(d, t.op) && t.op.Issue? && Commit(d, t).Ok?
    ensures var o := t.op;
            var sh := Share(o.shareId, o.accountId, o.personId, o.keyHash, t.now, if o.duration > 0 then t.now + o.duration else ZERO_TIME, o.who);
            Opens(Commit(d, t).value.shares, sh)
  {
    var o := t.op;
    var sh := Share(o.shareId, o.accountId, o.personId, o.keyHash, t.now, if o.duration > 0 then t.now + o.duration else ZERO_TIME, o.who);
    CommitKeepsConsistent(d, t);
    ThePutShareIsThere(ExpireShares(d, t.swept).shares, sh);
    DistinctKeysOpen(Commit(d, t).value.shares, sh);
  }

  lemma ThePutShareIsThere(shares: seq<Share>, sh: Share)
    ensures sh in PutShare(shares, sh)
    ensures forall x :: x in PutShare(shares, sh) <==> x == sh || (x in shares && !(x.accountId == sh.accountId && x.personId == sh.personId))
  {
    WithoutMembers(shares, Replaced(sh.accountId, sh.personId));
  }

  /** An issue is refused exactly when its account or its person is not there. */
  lemma AnIssueIsRefusedExactlyWhen(d: Data, t: Txn)
    requires t.op.Issue?
    ensures Commit(d, t).Ok? <==> (exists a <- d.accounts :: a.id == t.op.accountId) && exists p <- d.people :: p.id == t.op.personId
  {
    var i, j := FindAccount(d.accounts, t.op.accountId), FindPerson(d.people, t.op.personId);
    assert i >= 0 ==> d.accounts[i] in d.accounts;
    assert j >= 0 ==> d.people[j] in d.people;
  }

  /** The login handed up is on the panel under one account, and its owner has a share of that account. */
  lemma AContributedLoginIsThere(d: Data, t: Txn)
    requires Consistent(d) && BringsFresh(d, t.op) && t.op.Contribute? && Commit(d, t).Ok?
    ensures var d', o := Commit(d, t).value, t.op;
            exists i :: 0 <= i < |d'.accounts| && d'.accounts[i].credential == Some(o.blob)
              && (if AccountByLogin(d, o.email, o.name) < 0
                  then d'.accounts == d.accounts + [Account(o.accountId, o.name, Trim(o.email), Trim(o.plan), t.now, Some(o.blob), o.personId)] && i == |d.accounts|
                  else i == AccountByLogin(d, o.email, o.name) && d'.accounts[i].id == d.accounts[i].id)
              && OwnerHasShare(ExpireShares(d, t.swept).shares, d'.shares, d'.accounts[i].id, t)
  {
    hide BringsFresh, Commit, AccountByLogin, Trim, SignInEnd, OwnerHasShare;
    var o := t.op;
    var swept := ExpireShares(d, t.swept);
    var i := if AccountByLogin(d, o.email, o.name) < 0 then |d.accounts| else AccountByLogin(d, o.email, o.name);
    SweepKeepsLogins(d, t.swept, o.email, o.name);
    CommitIsDecide(d, t);
    ContributeTakes(swept, o, t.now, i);
    var d' := Commit(d, t).value;
    var r := TakeLogin(swept, o.email, o.name, o.plan, o.blob, o.accountId, o.personId, t.now).value;
    CommitKeepsConsistent(d, t);
    OwnersShare(swept.shares, d', r.0, r.1, t);
  }

  /** A contribution is refused exactly when the login it is for is held with a sign-in that is known to end no sooner. */
  lemma AContributionIsRefusedExactlyWhen(d: Data, t: Txn)
    requires t.op.Contribute?
    ensures var i := AccountByLogin(d, t.op.email, t.op.name);
            Commit(d, t).Err? <==>
              && i >= 0 && d.accounts[i].credential.Some?
              && 0 < SignInEnd(t.op.blob) <= SignInEnd(d.accounts[i].credential.value)
  {
    hide AccountByLogin, Trim, SignInEnd;
    SweepKeepsLogins(d, t.swept, t.op.email, t.op.name);
  }

  lemma CommitIsDecide(d: Data, t: Txn)
    requires Commit(d, t).Ok?
    ensures var r := Decide(ExpireShares(d, t.swept), t.op, t.now);
            r.Ok? && Commit(d, t).value == r.value.(activity := Commit(d, t).value.activity)
  {
    hide Decide;
  }

  lemma SweepKeepsLogins(d: Data, now: Instant, email: string, name: string)
    ensures var s := ExpireShares(d, now);
            && s.accounts == d.accounts && s.people == d.people && s.devices == d.devices && s.joinCodes == d.joinCodes
            && AccountByLogin(s, email, name) == AccountByLogin(d, email, name)
  {
  }

  lemma ContributeTakes(d: Data, o: Op, now: Instant, i: nat)
    requires o.Contribute? && Decide(d, o, now).Ok?
    requires i == if AccountByLogin(d, o.email, o.name) < 0 then |d.accounts| else AccountByLogin(d, o.email, o.name)
    ensures var r := TakeLogin(d, o.email, o.name, o.plan, o.blob, o.accountId, o.personId, now);
            && r.Ok? && i < |r.value.0.accounts| && r.value.0.accounts[i].id == r.value.1 && r.value.0.accounts[i].credential == Some(o.blob)
            && r.value.0.shares == d.shares
            && Decide(d, o, now).value == OwnShare(r.value.0, r.value.1, o.personId, o.shareId, o.keyHash, now)
            && (if AccountByLogin(d, o.email, o.name) < 0
                then r.value.0.accounts == d.accounts + [Account(o.accountId, o.name, Trim(o.email), Trim(o.plan), now, Some(o.blob), o.personId)]
                else r.value.1 == d.accounts[i].id)
            && Decide(d, o, now).value.accounts == r.value.0.accounts
  {
    hide AccountByLogin, Trim, SignInEnd, PutShare, HasShare;
  }

  /** A share of their own: the one they had, or a new one without an end. */
  ghost predicate OwnerHasShare(before: seq<Share>, shares: seq<Share>, accountId: string, t: Txn)
    requires t.op.Contribute?
  {
    if HasShare(before, accountId, t.op.personId) then shares == before
    else exists who :: Opens(shares, Share(t.op.shareId, accountId, t.op.personId, t.op.keyHash, t.now, ZERO_TIME, who))
  }

  lemma OwnersShare(before: seq<Share>, d': Data, taken: Data, id: string, t: Txn)
    requires t.op.Contribute? && taken.shares == before && DistinctKeys(d'.shares)
    requires d'.shares == OwnShare(taken, id, t.op.personId, t.op.shareId, t.op.keyHash, t.now).shares
    ensures OwnerHasShare(before, d'.shares, id, t)
  {
    hide HasShare, Opens, PersonName;
    if !HasShare(before, id, t.op.personId) {
      var sh := Share(t.op.shareId, id, t.op.personId, t.op.keyHash, t.now, ZERO_TIME, PersonName(taken, t.op.personId));
      ThePutShareIsThere(before, sh);
      DistinctKeysOpen(d'.shares, sh);
    }
  }

  /** The account a login already is: the first with its address, whatever the case, and only without one the first with its name. */
  lemma ALoginIsFoundByAddressThenName(d: Data, email: string, name: string)
    ensures var i := AccountByLogin(d, email, name);
            if Trim(email) != "" && exists a <- d.accounts :: EqualFold(a.email, Trim(email)) then
              i >= 0 && EqualFold(d.accounts[i].email, Trim(email)) && forall j :: 0 <= j < i ==> !EqualFold(d.accounts[j].email, Trim(email))
            else if exists a <- d.accounts :: EqualFold(a.name, Trim(name)) then
              i >= 0 && EqualFold(d.accounts[i].name, Trim(name)) && forall j :: 0 <= j < i ==> !EqualFold(d.accounts[j].name, Trim(name))
            else i < 0
  {
    hide Trim, EqualFold;
  }

  // ------------------------------------------------------------ until they end

  /** A share stays exactly until its time is up at a sweep, its key is issued again, or it, its account or its person is removed. */
  lemma SharesStayExactlyWhen(d: Data, t: Txn, sh: Share)
    requires DistinctKeys(d.shares) && BringsFresh(d, t.op) && Commit(d, t).Ok? && sh in d.shares
    ensures sh in Commit(d, t).value.shares <==>
            && (sh.expiresAt == ZERO_TIME || t.swept < sh.expiresAt)
            && !(t.op.Issue? && t.op.accountId == sh.accountId && t.op.personId == sh.personId)
            && !(t.op.Revoke? && t.op.shareId == sh.id)
            && !((t.op.RemoveAccount? || t.op.Withdraw?) && t.op.id == sh.accountId)
            && !(t.op.RemovePerson? && t.op.id == sh.personId)
  {
    hide Commit;
    SharesEndExactlyWhen(d, t, sh);
  }

  /** A key opens its share through every run of transactions none of which ends it. */
  lemma {:induction false} AKeyOpensUntilItEnds(d: Data, log: seq<Txn>, sh: Share)
    requires Consistent(d) && Legal(d, log) && AllFresh(d, log) && sh in d.shares
    requires forall i :: 0 <= i < |log| ==> !Ends(log[i], sh)
    ensures Opens(After(d, log).shares, sh)
    decreases |log|
  {
    hide Commit, BringsFresh, Ends, Opens;
    if log == [] {
      DistinctKeysOpen(d.shares, sh);
    } else {
      assert !Ends(log[0], sh);
      CommitKeepsConsistent(d, log[0]);
      SharesEndExactlyWhen(d, log[0], sh);
      AKeyOpensUntilItEnds(Commit(d, log[0]).value, log[1..], sh);
    }
  }

  /** So a key that was issued opens its account, through any run, until a transaction ends its share. */
  lemma AnIssuedKeyOpensUntilItEnds(d: Data, t: Txn, log: seq<Txn>, sh: Share)
    requires Consistent(d) && BringsFresh(d, t.op) && t.op.Issue? && Commit(d, t).Ok?
    requires Legal(Commit(d, t).value, log) && AllFresh(Commit(d, t).value, log)
    requires var o := t.op;
             sh == Share(o.shareId, o.accountId, o.personId, o.keyHash, t.now, if o.duration > 0 then t.now + o.duration else ZERO_TIME, o.who)
    requires forall i :: 0 <= i < |log| ==> !Ends(log[i], sh)
    ensures Opens(After(Commit(d, t).value, log).shares, sh)
  {
    hide Commit, BringsFresh, Ends;
    AnIssuedKeyOpens(d, t);
    CommitKeepsConsistent(d, t);
    AKeyOpensUntilItEnds(Commit(d, t).value, log, sh);
  }

  // ------------------------------------------------------------ machines

  /** An enrolment is accepted exactly when its code is there, unused and not past its end. */
  lemma AnEnrolmentIsAcceptedExactlyWhen(d: Data, t: Txn)
    requires t.op.Enrol?
    ensures var i := FindCode(d.joinCodes, t.op.codeHash);
            Commit(d, t).Ok? <==> i >= 0 && d.joinCodes[i].usedAt == ZERO_TIME && t.now <= d.joinCodes[i].expiresAt
  {
    hide FindCode;
  }

  /** It then sets up one machine, of the invited person, and uses the code. */
  lemma AnEnrolmentSetsUpAMachine(d: Data, t: Txn)
    requires t.op.Enrol? && Commit(d, t).Ok?
    ensures var d', o, i := Commit(d, t).value, t.op, FindCode(d.joinCodes, t.op.codeHash);
            && i >= 0
            && d'.devices == d.devices + [Device(o.deviceId, d.joinCodes[i].personId, o.machine, o.tokenHash, t.now, t.now)]
            && d'.joinCodes == d.joinCodes[i := d.joinCodes[i].(usedAt := t.now)]
  {
    hide FindCode;
  }

  /** An invitation to someone who is there makes a code of theirs, not used, that the newest machine can be enrolled with. */
  lemma AnInvitationCanBeUsed(d: Data, t: Txn)
    requires t.op.Invite? && forall c <- d.joinCodes :: c.codeHash != t.op.codeHash
    ensures Commit(d, t).Ok? <==> exists p <- d.people :: p.id == t.op.personId
    ensures Commit(d, t).Ok? ==>
              var d', o := Commit(d, t).value, t.op;
              var i := FindCode(d'.joinCodes, o.codeHash);
              i >= 0 && d'.joinCodes[i] == JoinCode(o.codeHash, o.personId, o.expires, ZERO_TIME, o.who)
  {
    var j := FindPerson(d.people, t.op.personId);
    assert j >= 0 ==> d.people[j] in d.people;
    if Commit(d, t).Ok? {
      var d' := Commit(d, t).value;
      var i := FindCode(d'.joinCodes, t.op.codeHash);
      assert d'.joinCodes[|d.joinCodes|].codeHash == t.op.codeHash;
      assert d'.joinCodes[|d.joinCodes|] in d'.joinCodes;
      assert forall j :: 0 <= j < |d.joinCodes| ==> d'.joinCodes[j] == d.joinCodes[j] && d.joinCodes[j] in d.joinCodes;
    }
  }

  /** Cutting a machine off takes it off the panel, and no other; it is refused when it is not there. */
  lemma AMachineIsCutOff(d: Data, t: Txn)
    requires t.op.CutOffDevice?
    ensures Commit(d, t).Ok? <==> exists x <- d.devices :: x.id == t.op.id
    ensures Commit(d, t).Ok? ==> forall x :: x in Commit(d, t).value.devices <==> x in d.devices && x.id != t.op.id
  {
    var i := FindDevice(d.devices, t.op.id);
    assert i >= 0 ==> d.devices[i] in d.devices;
  }

  /** A check-in marks the machine as seen, and no other. */
  lemma ACheckInIsSeen(d: Data, t: Txn, i: nat)
    requires t.op.CheckIn? && i < |d.devices|
    ensures Commit(d, t).Ok? && |Commit(d, t).value.devices| == |d.devices|
    ensures Commit(d, t).value.devices[i] == if d.devices[i].id == t.op.deviceId then d.devices[i].(lastSeen := t.now) else d.devices[i]
  {
  }

  // ------------------------------------------------------------ people and accounts

  lemma APersonIsAdded(d: Data, t: Txn)
    requires t.op.AddPerson?
    ensures Commit(d, t).Ok? && Commit(d, t).value.people == d.people + [Person(t.op.id, t.op.name, t.op.email, t.now)]
  {
  }

  /** Who is removed takes their machines and shares along, and nobody else's. */
  lemma APersonIsRemoved(d: Data, t: Txn)
    requires t.op.RemovePerson?
    ensures Commit(d, t).Ok? <==> exists p <- d.people :: p.id == t.op.id
    ensures Commit(d, t).Ok? ==>
              var d' := Commit(d, t).value;
              && (forall p :: p in d'.people <==> p in d.people && p.id != t.op.id)
              && (forall x :: x in d'.devices <==> x in d.devices && x.personId != t.op.id)
              && (forall sh <- d'.shares :: sh.personId != t.op.id)
  {
    var i := FindPerson(d.people, t.op.id);
    assert i >= 0 ==> d.people[i] in d.people;
    WithoutMembers(ExpireShares(d, t.swept).shares, PersonGone(t.op.id));
  }

  /** An account that is removed, or withdrawn by the one who added it and nobody else, takes its shares along. */
  lemma AnAccountIsRemoved(d: Data, t: Txn)
    requires t.op.RemoveAccount? || t.op.Withdraw?
    ensures var i := FindAccount(d.accounts, t.op.id);
            Commit(d, t).Ok? <==>
              (exists a <- d.accounts :: a.id == t.op.id)
              && (t.op.Withdraw? ==> i >= 0 && d.accounts[i].addedBy == t.op.personId && t.op.personId != "")
    ensures Commit(d, t).Ok? ==>
              var d' := Commit(d, t).value;
              && (forall a :: a in d'.accounts <==> a in d.accounts && a.id != t.op.id)
              && (forall sh <- d'.shares :: sh.accountId != t.op.id)
  {
    var i := FindAccount(d.accounts, t.op.id);
    assert i >= 0 ==> d.accounts[i] in d.accounts;
    WithoutMembers(ExpireShares(d, t.swept).shares, AccountGone(t.op.id));
  }

  /** A rotation that is stored is what the account holds then, unless it held a newer one; other accounts are as they were. */
  lemma ARotationIsHeld(d: Data, t: Txn, i: nat)
    requires t.op.StoreCredential? && i < |d.accounts|
    requires d.accounts[i].id == t.op.accountId && (forall j :: 0 <= j < i ==> d.accounts[j].id != t.op.accountId)
    requires d.accounts[i].credential.Some? && t.op.rotated.refresh != "" && 0 < t.op.rotated.expires
    ensures Commit(d, t).Ok?
    ensures var d', r, held := Commit(d, t).value, t.op.rotated, ParseCredential(d.accounts[i].credential.value);
            && |d'.accounts| == |d.accounts| && d'.accounts[i].credential.Some?
            && d'.accounts[i] == d.accounts[i].(credential := d'.accounts[i].credential)
            && (forall j :: 0 <= j < |d.accounts| && j != i ==> d'.accounts[j] == d.accounts[j])
            && (if held.expires > r.expires then d'.accounts[i] == d.accounts[i]
                else ParseCredential(d'.accounts[i].credential.value) == Credential(r.access, r.refresh, Stamp(r.expires)))
  {
    hide UpdateCredential, ParseCredential;
    var k := FindAccount(d.accounts, t.op.accountId);
    assert d.accounts[i] in d.accounts;
    assert k == i;
    UpdateThenParse(d.accounts[i].credential.value, t.op.rotated);
  }

  // ------------------------------------------------------------ the activity log

  /** The log keeps its newest lines, all of them up to two thousand. */
  lemma TheNewestLinesAreKept(d: Data, t: Txn)
    requires Commit(d, t).Ok?
    ensures var all, kept := Decide(ExpireShares(d, t.swept), t.op, t.now).value.activity, Commit(d, t).value.activity;
            |kept| == (if |all| < 2000 then |all| else 2000) && kept == all[|all| - |kept|..]
  {
    hide Decide;
  }

  /** And every decision that changes something is the last line of it. */
  lemma ADecisionIsLogged(d: Data, t: Txn)
    requires Commit(d, t).Ok? && (t.op.AddPerson? || t.op.RemovePerson? || t.op.Issue? || t.op.Enrol? || t.op.RemoveAccount? || t.op.CutOffDevice?)
    ensures var kept := Commit(d, t).value.activity; kept != [] && kept[|kept| - 1].at == t.now
  {
    hide Without, AccountsWithout, PeopleWithout, DevicesOfOthers, DevicesWithout, ExpiryNotes, FindCode;
  }
}

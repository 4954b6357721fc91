/**
  What every run of panel transactions keeps (panel/store.go, panel/handlers.go): one
  share per person and account, no share without its account, a key that has ended
  never resolving again, and a join code enrolling one machine at most.
 */
module PanelInvariants {
  import opened Wrappers
  import opened Times
  import opened Credentials
  import opened Strings
  import opened Panel

  predicate OneSharePerPair(shares: seq<Share>) {
    forall i, j :: 0 <= i < j < |shares| ==>
      !(shares[i].accountId == shares[j].accountId && shares[i].personId == shares[j].personId)
  }

  predicate DistinctKeys(shares: seq<Share>) {
    forall i, j :: 0 <= i < j < |shares| ==> shares[i].keyHash != shares[j].keyHash && shares[i].id != shares[j].id
  }

  ghost predicate SharesHaveAccounts(d: Data) {
    forall sh <- d.shares :: exists a <- d.accounts :: a.id == sh.accountId
  }

  predicate DistinctAccounts(accounts: seq<Account>) {
    forall i, j :: 0 <= i < j < |accounts| ==> accounts[i].id != accounts[j].id
  }

  ghost predicate Consistent(d: Data) {
    OneSharePerPair(d.shares) && DistinctKeys(d.shares) && SharesHaveAccounts(d) && DistinctAccounts(d.accounts)
  }

  /** The ids and key hashes an operation brings are not in use. */
  ghost predicate BringsFresh(d: Data, op: Op) {
    && (op.Issue? || op.Contribute? ==> forall sh <- d.shares :: sh.keyHash != op.keyHash && sh.id != op.shareId)
    && (op.Contribute? ==> forall a <- d.accounts :: a.id != op.accountId)
  }

  // ------------------------------------------------------------ one transaction

  /** Where a share that a cut leaves stood before it. */
  function Origin(shares: seq<Share>, cut: Cut, k: nat): (o: nat)
    requires k < |Without(shares, cut)|
    ensures o < |shares| && shares[o] == Without(shares, cut)[k]
  {
    if Cuts(cut, shares[0]) then 1 + Origin(shares[1..], cut, k)
    else if k == 0 then 0
    else 1 + Origin(shares[1..], cut, k - 1)
  }

  lemma {:induction false} OriginsIncrease(shares: seq<Share>, cut: Cut, i: nat, j: nat)
    requires i < j < |Without(shares, cut)|
    ensures Origin(shares, cut, i) < Origin(shares, cut, j)
    decreases |shares|
  {
    if Cuts(cut, shares[0]) {
      OriginsIncrease(shares[1..], cut, i, j);
    } else if i > 0 {
      OriginsIncrease(shares[1..], cut, i - 1, j - 1);
    }
  }

  /** A selection of shares, in their order, keeps what held of every pair. */
  lemma WithoutKeepsPairs(shares: seq<Share>, cut: Cut)
    ensures OneSharePerPair(shares) ==> OneSharePerPair(Without(shares, cut))
    ensures DistinctKeys(shares) ==> DistinctKeys(Without(shares, cut))
  {
    hide Without, Origin;
    var left := Without(shares, cut);
    forall i, j | 0 <= i < j < |left|
      ensures OneSharePerPair(shares) ==> !(left[i].accountId == left[j].accountId && left[i].personId == left[j].personId)
      ensures DistinctKeys(shares) ==> left[i].keyHash != left[j].keyHash && left[i].id != left[j].id
    {
      OriginsIncrease(shares, cut, i, j);
      var a, b := Origin(shares, cut, i), Origin(shares, cut, j);
      assert shares[a] == left[i] && shares[b] == left[j];
    }
  }

  lemma PutKeepsPairs(shares: seq<Share>, sh: Share)
    requires OneSharePerPair(shares) && DistinctKeys(shares)
    requires forall x <- shares :: x.keyHash != sh.keyHash && x.id != sh.id
    ensures OneSharePerPair(PutShare(shares, sh)) && DistinctKeys(PutShare(shares, sh))
  {
    WithoutKeepsPairs(shares, Replaced(sh.accountId, sh.personId));
    WithoutMembers(shares, Replaced(sh.accountId, sh.personId));
    var kept := Without(shares, Replaced(sh.accountId, sh.personId));
    forall i | 0 <= i < |kept|
      ensures kept[i].keyHash != sh.keyHash && kept[i].id != sh.id
      ensures !(kept[i].accountId == sh.accountId && kept[i].personId == sh.personId)
    {
      assert kept[i] in kept;
    }
  }

  lemma {:induction false} AccountsStayDistinct(accounts: seq<Account>, id: string)
    requires DistinctAccounts(accounts)
    ensures DistinctAccounts(AccountsWithout(accounts, id))
    decreases |accounts|
  {
    if accounts == [] {
    } else {
      AccountsStayDistinct(accounts[1..], id);
      var rest := AccountsWithout(accounts[1..], id);
      forall j | 0 <= j < |rest| ensures accounts[0].id != rest[j].id {
        assert rest[j] in rest;
        var k :| 0 <= k < |accounts[1..]| && accounts[1..][k] == rest[j];
        assert accounts[k + 1] == rest[j];
      }
    }
  }

  lemma ExpiryKeepsConsistent(d: Data, now: Instant)
    requires Consistent(d)
    ensures Consistent(ExpireShares(d, now))
  {
    WithoutKeepsPairs(d.shares, Expired(now));
    WithoutMembers(d.shares, Expired(now));
  }

  lemma RemovalKeepsConsistent(d: Data, id: string)
    requires Consistent(d)
    ensures Consistent(WithoutAccount(d, id))
  {
    WithoutKeepsPairs(d.shares, AccountGone(id));
    WithoutMembers(d.shares, AccountGone(id));
    AccountsStayDistinct(d.accounts, id);
    var d' := WithoutAccount(d, id);
    forall sh | sh in d'.shares
      ensures exists a <- d'.accounts :: a.id == sh.accountId
    {
      assert sh in d.shares && sh.accountId != id;
      var a :| a in d.accounts && a.id == sh.accountId;
      assert a in d'.accounts;
    }
  }

  /** Accounts with the same ids carry the same shares. */
  lemma SameIdsKeepConsistent(d: Data, d': Data)
    requires Consistent(d) && d'.shares == d.shares
    requires |d'.accounts| == |d.accounts| && forall i :: 0 <= i < |d.accounts| ==> d'.accounts[i].id == d.accounts[i].id
    ensures Consistent(d')
  {
    forall sh | sh in d'.shares
      ensures exists a <- d'.accounts :: a.id == sh.accountId
    {
      var a :| a in d.accounts && a.id == sh.accountId;
      var i :| 0 <= i < |d.accounts| && d.accounts[i] == a;
      assert d'.accounts[i] in d'.accounts;
    }
  }

  lemma PutKeepsConsistent(d: Data, sh: Share)
    requires Consistent(d) && (exists a <- d.accounts :: a.id == sh.accountId)
    requires forall x <- d.shares :: x.keyHash != sh.keyHash && x.id != sh.id
    ensures Consistent(d.(shares := PutShare(d.shares, sh)))
  {
    PutKeepsPairs(d.shares, sh);
    WithoutMembers(d.shares, Replaced(sh.accountId, sh.personId));
  }

  lemma AddingKeepsConsistent(d: Data, d': Data, a: Account)
    requires Consistent(d) && d'.shares == d.shares && d'.accounts == d.accounts + [a]
    requires forall x <- d.accounts :: x.id != a.id
    ensures Consistent(d') && exists x <- d'.accounts :: x.id == a.id
  {
    assert d'.accounts[|d.accounts|] == a && a in d'.accounts;
    forall sh | sh in d'.shares
      ensures exists x <- d'.accounts :: x.id == sh.accountId
    {
      var x :| x in d.accounts && x.id == sh.accountId;
      assert x in d'.accounts;
    }
  }

  lemma TakeLoginKeepsConsistent(d: Data, op: Op, now: Instant)
    requires Consistent(d) && op.Contribute? && BringsFresh(d, op)
    requires TakeLogin(d, op.email, op.name, op.plan, op.blob, op.accountId, op.personId, now).Ok?
    ensures var r := TakeLogin(d, op.email, op.name, op.plan, op.blob, op.accountId, op.personId, now).value;
            Consistent(r.0) && r.0.shares == d.shares && exists a <- r.0.accounts :: a.id == r.1
  {
    hide Consistent, AccountByLogin, Trim;
    var (d', id) := TakeLogin(d, op.email, op.name, op.plan, op.blob, op.accountId, op.personId, now).value;
    var i := AccountByLogin(d, op.email, op.name);
    if i < 0 {
      AddingKeepsConsistent(d, d', d'.accounts[|d.accounts|]);
    } else {
      SameIdsKeepConsistent(d, d');
      assert d'.accounts[i] in d'.accounts;
    }
  }

  lemma IssueKeepsConsistent(d: Data, op: Op, now: Instant)
    requires op.Issue? && Consistent(d) && BringsFresh(d, op) && Decide(d, op, now).Ok?
    ensures Consistent(Decide(d, op, now).value)
  {
    var sh := Share(op.shareId, op.accountId, op.personId, op.keyHash, now, if op.duration > 0 then now + op.duration else ZERO_TIME, op.who);
    var i := FindAccount(d.accounts, op.accountId);
    assert d.accounts[i] in d.accounts;
    PutKeepsConsistent(d, sh);
  }

  lemma DecideKeepsConsistent(d: Data, op: Op, now: Instant)
    requires Consistent(d) && BringsFresh(d, op) && Decide(d, op, now).Ok?
    ensures Consistent(Decide(d, op, now).value)
  {
    hide Without, AccountsWithout, TakeLogin, AccountByLogin;
    match op
    case RemovePerson(id, who) => WithoutKeepsPairs(d.shares, PersonGone(id)); WithoutMembers(d.shares, PersonGone(id));
    case Issue(_, _, _, _, _, _) => IssueKeepsConsistent(d, op, now);
    case Revoke(shareId, who) => WithoutKeepsPairs(d.shares, Revoked(shareId)); WithoutMembers(d.shares, Revoked(shareId));
    case RemoveAccount(id, who) => RemovalKeepsConsistent(d, id);
    case Withdraw(id, personId) => RemovalKeepsConsistent(d, id);
    case Contribute(email, name, plan, blob, accountId, shareId, keyHash, personId) =>
      TakeLoginKeepsConsistent(d, op, now);
      var (d', id) := TakeLogin(d, email, name, plan, blob, accountId, personId, now).value;
      if !HasShare(d'.shares, id, personId) {
        PutKeepsConsistent(d', Share(shareId, id, personId, keyHash, now, ZERO_TIME, PersonName(d', personId)));
      }
    case StoreCredential(accountId, rotated) => SameIdsKeepConsistent(d, Decide(d, op, now).value);
    case _ =>
  }

  /** Every committed transaction keeps the panel consistent. */
  lemma CommitKeepsConsistent(d: Data, t: Txn)
    requires Consistent(d) && BringsFresh(d, t.op) && Commit(d, t).Ok?
    ensures Consistent(Commit(d, t).value)
    ensures |Commit(d, t).value.activity| <= MAX_ACTIVITY
  {
    hide Decide, ExpireShares;
    ExpiryKeepsConsistent(d, t.swept);
    assert BringsFresh(ExpireShares(d, t.swept), t.op) by { ExpiryKeepsFresh(d, t.op, t.swept); }
    DecideKeepsConsistent(ExpireShares(d, t.swept), t.op, t.now);
  }

  lemma ExpiryKeepsFresh(d: Data, op: Op, now: Instant)
    requires BringsFresh(d, op)
    ensures BringsFresh(ExpireShares(d, now), op)
  {
    WithoutMembers(d.shares, Expired(now));
  }

  // ------------------------------------------------------------ over every run

  /** The panel after a run of committed transactions. */
  function After(d: Data, log: seq<Txn>): Data
    requires Legal(d, log)
    decreases |log|
  {
    if log == [] then d else After(Commit(d, log[0]).value, log[1..])
  }

  /** Every transaction commits against the state its predecessors left. */
  predicate Legal(d: Data, log: seq<Txn>)
    decreases |log|
  {
    log == [] || (Commit(d, log[0]).Ok? && Legal(Commit(d, log[0]).value, log[1..]))
  }

  ghost predicate AllFresh(d: Data, log: seq<Txn>)
    requires Legal(d, log)
    decreases |log|
  {
    log == [] || (BringsFresh(d, log[0].op) && AllFresh(Commit(d, log[0]).value, log[1..]))
  }

  lemma {:induction false} RunsKeepConsistent(d: Data, log: seq<Txn>)
    requires Consistent(d) && Legal(d, log) && AllFresh(d, log)
    ensures Consistent(After(d, log))
    decreases |log|
  {
    if log == [] {
    } else {
      hide Consistent, BringsFresh, Commit;
      CommitKeepsConsistent(d, log[0]);
      RunsKeepConsistent(Commit(d, log[0]).value, log[1..]);
    }
  }

  // ------------------------------------------------------------ keys that have ended

  /** Whether a decision ends a share: its key is rotated, revoked, or removed with its account or person. */
  predicate EndsByDecision(op: Op, sh: Share) {
    match op
    case Issue(accountId, personId, _, _, _, _) => sh.accountId == accountId && sh.personId == personId
    case Revoke(shareId, _) => sh.id == shareId
    case RemoveAccount(id, _) => sh.accountId == id
    case Withdraw(id, _) => sh.accountId == id
    case RemovePerson(id, _) => sh.personId == id
    case _ => false
  }

  /** Whether a transaction ends a share: by its decision, or because its time was up at the sweep. */
  predicate Ends(t: Txn, sh: Share) {
    !Live(sh, t.swept) || EndsByDecision(t.op, sh)
  }

  /** The share an operation mints. */
  predicate IsMinted(op: Op, sh: Share) {
    (op.Issue? || op.Contribute?) && sh.keyHash == op.keyHash && sh.id == op.shareId
  }

  /** A decision drops exactly the shares it ends and adds no other than the one it mints. */
  ghost predicate SharesFollow(shares: seq<Share>, op: Op, shares': seq<Share>) {
    && (forall x :: x in shares ==> (x in shares' <==> !EndsByDecision(op, x)) || IsMinted(op, x))
    && (forall x :: x in shares' ==> x in shares || IsMinted(op, x))
  }

  lemma CutFollows(shares: seq<Share>, op: Op, cut: Cut)
    requires forall x :: x in shares ==> (Cuts(cut, x) <==> EndsByDecision(op, x))
    ensures SharesFollow(shares, op, Without(shares, cut))
  {
    WithoutMembers(shares, cut);
  }

  lemma ContributeShares(d: Data, op: Op, now: Instant)
    requires op.Contribute? && Decide(d, op, now).Ok?
    ensures SharesFollow(d.shares, op, Decide(d, op, now).value.shares)
  {
    hide TakeLogin, PersonName;
    TakeLoginShares(d, op, now);
    var id := TakeLogin(d, op.email, op.name, op.plan, op.blob, op.accountId, op.personId, now).value.1;
    WithoutMembers(d.shares, Replaced(id, op.personId));
  }

  lemma TakeLoginShares(d: Data, op: Op, now: Instant)
    requires op.Contribute? && TakeLogin(d, op.email, op.name, op.plan, op.blob, op.accountId, op.personId, now).Ok?
    ensures TakeLogin(d, op.email, op.name, op.plan, op.blob, op.accountId, op.personId, now).value.0.shares == d.shares
  {
    hide AccountByLogin, Refreshing;
  }

  lemma DecideShares(d: Data, op: Op, now: Instant)
    requires Decide(d, op, now).Ok?
    ensures SharesFollow(d.shares, op, Decide(d, op, now).value.shares)
  {
    hide FindPerson, FindCode, FindAccount, FindDevice, AccountsWithout, PeopleWithout, DevicesOfOthers,
      DevicesWithout, Seen, StoreDecision, Without, TakeLogin;
    match op
    case RemovePerson(id, who) => CutFollows(d.shares, op, PersonGone(id));
    case Revoke(shareId, who) =>
      if LastShare(d.shares, shareId) >= 0 {
        CutFollows(d.shares, op, Revoked(shareId));
      }
    case RemoveAccount(id, who) => CutFollows(d.shares, op, AccountGone(id));
    case Withdraw(id, personId) => CutFollows(d.shares, op, AccountGone(id));
    case Contribute(_, _, _, _, _, _, _, _) => ContributeShares(d, op, now);
    case Issue(accountId, personId, _, _, _, _) => WithoutMembers(d.shares, Replaced(accountId, personId));
    case _ =>
  }

  /** No committed transaction brings in a share other than the one it mints. */
  lemma SharesAfter(d: Data, t: Txn)
    requires Commit(d, t).Ok?
    ensures forall x :: x in Commit(d, t).value.shares ==> x in d.shares || IsMinted(t.op, x)
  {
    hide Decide;
    WithoutMembers(d.shares, Expired(t.swept));
    DecideShares(ExpireShares(d, t.swept), t.op, t.now);
  }

  /** A committed transaction drops exactly the shares it ends, and their keys with them. */
  lemma SharesEndExactlyWhen(d: Data, t: Txn, sh: Share)
    requires DistinctKeys(d.shares) && BringsFresh(d, t.op) && Commit(d, t).Ok? && sh in d.shares
    ensures sh in Commit(d, t).value.shares <==> !Ends(t, sh)
    ensures Ends(t, sh) ==> forall x <- Commit(d, t).value.shares :: x.keyHash != sh.keyHash
  {
    hide Decide, EndsByDecision;
    WithoutMembers(d.shares, Expired(t.swept));
    DecideShares(ExpireShares(d, t.swept), t.op, t.now);
    forall x | x in Commit(d, t).value.shares && x.keyHash == sh.keyHash ensures x == sh {
      SharesAfter(d, t);
      assert x in d.shares;
      SameKeySameShare(d.shares, x, sh);
    }
  }

  lemma SameKeySameShare(shares: seq<Share>, x: Share, y: Share)
    requires DistinctKeys(shares) && x in shares && y in shares && x.keyHash == y.keyHash
    ensures x == y
  {
    var i :| 0 <= i < |shares| && shares[i] == x;
    var j :| 0 <= j < |shares| && shares[j] == y;
  }

  predicate Mints(op: Op, hash: string) {
    (op.Issue? || op.Contribute?) && op.keyHash == hash
  }

  /**
    A key whose share has gone never resolves again, at any instant, through any run
    of transactions that does not mint that very key anew.
   */
  lemma {:induction false} EndedKeysStayEnded(d: Data, log: seq<Txn>, hash: string, at: Instant)
    requires Legal(d, log) && (forall x <- d.shares :: x.keyHash != hash)
    requires forall i :: 0 <= i < |log| ==> !Mints(log[i].op, hash)
    ensures ShareByKeyHashAt(After(d, log).shares, hash, at) == None
    decreases |log|
  {
    if log == [] {
    } else {
      hide Commit;
      SharesAfter(d, log[0]);
      assert !Mints(log[0].op, hash);
      EndedKeysStayEnded(Commit(d, log[0]).value, log[1..], hash, at);
    }
  }

  /** From the transaction that ends a share on, its key never resolves. */
  lemma EndedForGood(d: Data, t: Txn, log: seq<Txn>, sh: Share, at: Instant)
    requires Consistent(d) && BringsFresh(d, t.op) && Commit(d, t).Ok? && sh in d.shares && Ends(t, sh)
    requires Legal(Commit(d, t).value, log) && forall i :: 0 <= i < |log| ==> !Mints(log[i].op, sh.keyHash)
    ensures ShareByKeyHashAt(After(Commit(d, t).value, log).shares, sh.keyHash, at) == None
  {
    hide BringsFresh, Commit, Ends;
    SharesEndExactlyWhen(d, t, sh);
    EndedKeysStayEnded(Commit(d, t).value, log, sh.keyHash, at);
  }

  // ------------------------------------------------------------ join codes

  predicate Enrols(t: Txn, hash: string) {
    t.op.Enrol? && t.op.codeHash == hash
  }

  /** How many machines a run enrolled with a code. */
  function Enrolments(log: seq<Txn>, hash: string): nat {
    if log == [] then 0 else (if Enrols(log[0], hash) then 1 else 0) + Enrolments(log[1..], hash)
  }

  lemma {:induction false} FindCodeInLonger(codes: seq<JoinCode>, more: seq<JoinCode>, hash: string)
    ensures FindCode(codes, hash) >= 0 ==> FindCode(codes + more, hash) == FindCode(codes, hash)
    decreases |codes|
  {
    if codes == [] {
    } else {
      assert (codes + more)[1..] == codes[1..] + more;
      FindCodeInLonger(codes[1..], more, hash);
    }
  }

  lemma {:induction false} FindCodeAfterUse(codes: seq<JoinCode>, i: nat, used: JoinCode, hash: string)
    requires i < |codes| && used.codeHash == codes[i].codeHash
    ensures FindCode(codes[i := used], hash) == FindCode(codes, hash)
    decreases |codes|
  {
    if i > 0 {
      assert codes[i := used][1..] == codes[1..][i - 1 := used];
      FindCodeAfterUse(codes[1..], i - 1, used, hash);
    } else {
      assert codes[i := used][1..] == codes[1..];
    }
  }

  /** Join codes are only ever added to, or marked used by an enrolment that found them unused. */
  predicate CodesFollow(codes: seq<JoinCode>, t: Txn, codes': seq<JoinCode>) {
    match t.op
    case Invite(_, _, _, _) => |codes'| == |codes| + 1 && codes' == codes + [codes'[|codes|]]
    case Enrol(hash, _, _, _) =>
      var i := FindCode(codes, hash);
      i >= 0 && codes[i].usedAt == ZERO_TIME && codes' == codes[i := codes[i].(usedAt := t.now)]
    case _ => codes' == codes
  }

  lemma CodesAfter(d: Data, t: Txn)
    requires Commit(d, t).Ok?
    ensures CodesFollow(d.joinCodes, t, Commit(d, t).value.joinCodes)
  {
    hide AccountByLogin, FindPerson, FindAccount, FindDevice, AccountsWithout, PeopleWithout, DevicesOfOthers,
      DevicesWithout, Seen, StoreDecision, SignInEnd, Trim, LastShare, Without, FindCode;
  }

  predicate Spent(codes: seq<JoinCode>, hash: string) {
    var i := FindCode(codes, hash);
    i >= 0 && codes[i].usedAt != ZERO_TIME
  }

  /** A used code stays used, and an enrolment uses its code. */
  lemma SpentStays(codes: seq<JoinCode>, t: Txn, codes': seq<JoinCode>, hash: string)
    requires CodesFollow(codes, t, codes') && t.now != ZERO_TIME
    ensures Spent(codes, hash) || Enrols(t, hash) ==> Spent(codes', hash)
    ensures Enrols(t, hash) ==> !Spent(codes, hash)
  {
    match t.op
    case Invite(_, _, _, _) => FindCodeInLonger(codes, [codes'[|codes|]], hash);
    case Enrol(h, _, _, _) =>
      var i := FindCode(codes, h);
      FindCodeAfterUse(codes, i, codes[i].(usedAt := t.now), hash);
    case _ =>
  }

  /**
    A join code enrols at most one machine in any run of committed transactions, so
    whichever servers they were decided on; and none once it has been used.
   */
  lemma {:induction false} ACodeEnrolsOneMachine(d: Data, log: seq<Txn>, hash: string)
    requires Legal(d, log) && forall i :: 0 <= i < |log| ==> log[i].now != ZERO_TIME
    ensures Enrolments(log, hash) <= if Spent(d.joinCodes, hash) then 0 else 1
    decreases |log|
  {
    if log == [] {
    } else {
      hide Commit, Spent, CodesFollow;
      CodesAfter(d, log[0]);
      SpentStays(d.joinCodes, log[0], Commit(d, log[0]).value.joinCodes, hash);
      ACodeEnrolsOneMachine(Commit(d, log[0]).value, log[1..], hash);
    }
  }

  // ------------------------------------------------------------ logins handed up again

  /**
    Taking a login that is handed up keeps every account, and one it refreshes keeps its
    identity; its sign-in then ends later than the one it had, where both say when.
   */
  lemma ALoginIsOnlyRefreshedByANewerSignIn(d: Data, op: Op, now: Instant, i: nat)
    requires op.Contribute? && Decide(d, op, now).Ok? && i < |d.accounts|
    ensures var now' := Decide(d, op, now).value.accounts;
            && i < |now'|
            && now'[i].id == d.accounts[i].id && now'[i].name == d.accounts[i].name && now'[i].createdAt == d.accounts[i].createdAt
            && (now'[i] != d.accounts[i] ==>
                  && i == AccountByLogin(d, op.email, op.name) && now'[i].credential == Some(op.blob)
                  && (d.accounts[i].credential.Some? ==>
                        var held := SignInEnd(d.accounts[i].credential.value);
                        held > 0 && SignInEnd(op.blob) > 0 ==> SignInEnd(op.blob) > held))
  {
    hide AccountByLogin, SignInEnd, Trim, PutShare, HasShare;
  }

  // ------------------------------------------------------------ the line about a revoked share

  /**
    The activity line written for a revoked share names the share that followed it,
    when one did: it names the revoked one exactly when that was the last share, or
    the next is for the same person and account.
   */
  lemma TheRevokedLineNamesTheNextShare(shares: seq<Share>, i: nat)
    requires DistinctKeys(shares) && i < |shares|
    ensures LastShare(shares, shares[i].id) == i
    ensures var named := SlotAfterRevoke(shares, shares[i].id);
            && named == (if i + 1 < |shares| then shares[i + 1] else shares[i])
            && ((named.personId == shares[i].personId && named.accountId == shares[i].accountId) <==>
                (i + 1 == |shares| || (shares[i + 1].personId == shares[i].personId && shares[i + 1].accountId == shares[i].accountId)))
  {
    var id := shares[i].id;
    WithoutOne(shares, i);
    assert LastShare(shares, id) >= 0;
  }

  lemma {:induction false} WithoutOne(shares: seq<Share>, i: nat)
    requires DistinctKeys(shares) && i < |shares|
    ensures Without(shares, Revoked(shares[i].id)) == shares[..i] + shares[i + 1..]
    decreases |shares|
  {
    if i == 0 {
      WithoutNone(shares[1..], shares[0].id);
    } else {
      WithoutOne(shares[1..], i - 1);
      assert shares[..i] == [shares[0]] + shares[1..][..i - 1];
      assert shares[i + 1..] == shares[1..][i..];
    }
  }

  lemma {:induction false} WithoutNone(shares: seq<Share>, id: string)
    requires forall j :: 0 <= j < |shares| ==> shares[j].id != id
    ensures Without(shares, Revoked(id)) == shares
    decreases |shares|
  {
    if shares == [] {
    } else {
      WithoutNone(shares[1..], id);
    }
  }
}

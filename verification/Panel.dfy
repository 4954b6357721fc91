/**
  The panel's state and the decisions taken on it (panel/model.go, panel/store.go,
  panel/handlers.go). A decision is a function of the state read; what the store does
  with it is in `Stores`.
 */
module Panel {
  import opened Wrappers
  import opened Times
  import opened Credentials
  import opened Strings

  datatype Person = Person(id: string, name: string, email: string, createdAt: Instant)

  datatype Device = Device(id: string, personId: string, name: string, tokenHash: string, enrolledAt: Instant, lastSeen: Instant)

  /** A login on the panel; its credential is held unsealed here. */
  datatype Account = Account(id: string, name: string, email: string, plan: string,
                             createdAt: Instant, credential: Option<Blob>, addedBy: string)

  /** One account made available to one person; `expiresAt` is ZERO_TIME when it has no deadline. */
  datatype Share = Share(id: string, accountId: string, personId: string, keyHash: string,
                         createdAt: Instant, expiresAt: Instant, grantedBy: string)

  datatype JoinCode = JoinCode(codeHash: string, personId: string, expiresAt: Instant, usedAt: Instant, invitedBy: string)

  /** What an activity line says, without its wording. */
  datatype Note =
    | Gave(person: string, account: string, duration: int)
    | Took(person: string, account: string)
    | Ended(person: string, account: string, grantedBy: string)
    | Added(name: string)
    | Refreshed(name: string)
    | Removed(name: string)
    | Invited(name: string)
    | SetUp(machine: string)
    | CutOff(machine: string)

  datatype Event = Event(at: Instant, who: string, what: Note)

  datatype Data = Data(people: seq<Person>, devices: seq<Device>, accounts: seq<Account>,
                       joinCodes: seq<JoinCode>, shares: seq<Share>, activity: seq<Event>)

  const MAX_ACTIVITY := 2000

  const GONE_ACCOUNT := "an account that no longer exists"
  const GONE_PERSON := "someone who is no longer here"

  // ------------------------------------------------------------ lookups

  function FindAccount(accounts: seq<Account>, id: string): (i: int)
    ensures -1 <= i < |accounts|
    ensures i >= 0 ==> accounts[i].id == id && forall j :: 0 <= j < i ==> accounts[j].id != id
    ensures i < 0 ==> forall a <- accounts :: a.id != id
  {
    if accounts == [] then -1
    else if accounts[0].id == id then 0
    else
      var k := FindAccount(accounts[1..], id);
      if k < 0 then -1 else k + 1
  }

  function FindPerson(people: seq<Person>, id: string): (i: int)
    ensures -1 <= i < |people|
    ensures i >= 0 ==> people[i].id == id && forall j :: 0 <= j < i ==> people[j].id != id
    ensures i < 0 ==> forall p <- people :: p.id != id
  {
    if people == [] then -1
    else if people[0].id == id then 0
    else
      var k := FindPerson(people[1..], id);
      if k < 0 then -1 else k + 1
  }

  function FindDevice(devices: seq<Device>, id: string): (i: int)
    ensures -1 <= i < |devices|
    ensures i >= 0 ==> devices[i].id == id && forall j :: 0 <= j < i ==> devices[j].id != id
    ensures i < 0 ==> forall x <- devices :: x.id != id
  {
    if devices == [] then -1
    else if devices[0].id == id then 0
    else
      var k := FindDevice(devices[1..], id);
      if k < 0 then -1 else k + 1
  }

  function FindCode(codes: seq<JoinCode>, hash: string): (i: int)
    ensures -1 <= i < |codes|
    ensures i >= 0 ==> codes[i].codeHash == hash && forall j :: 0 <= j < i ==> codes[j].codeHash != hash
    ensures i < 0 ==> forall c <- codes :: c.codeHash != hash
  {
    if codes == [] then -1
    else if codes[0].codeHash == hash then 0
    else
      var k := FindCode(codes[1..], hash);
      if k < 0 then -1 else k + 1
  }

  function AccountName(d: Data, id: string): string {
    var i := FindAccount(d.accounts, id);
    if i >= 0 then d.accounts[i].name else GONE_ACCOUNT
  }

  function PersonName(d: Data, id: string): string {
    var i := FindPerson(d.people, id);
    if i >= 0 then d.people[i].name else GONE_PERSON
  }

  function FindByEmail(accounts: seq<Account>, email: string): (i: int)
    ensures -1 <= i < |accounts|
    ensures i >= 0 ==> EqualFold(accounts[i].email, email) && forall j :: 0 <= j < i ==> !EqualFold(accounts[j].email, email)
    ensures i < 0 ==> forall a <- accounts :: !EqualFold(a.email, email)
  {
    if accounts == [] then -1
    else if EqualFold(accounts[0].email, email) then 0
    else
      var k := FindByEmail(accounts[1..], email);
      if k < 0 then -1 else k + 1
  }

  function FindByName(accounts: seq<Account>, name: string): (i: int)
    ensures -1 <= i < |accounts|
    ensures i >= 0 ==> EqualFold(accounts[i].name, name) && forall j :: 0 <= j < i ==> !EqualFold(accounts[j].name, name)
    ensures i < 0 ==> forall a <- accounts :: !EqualFold(a.name, name)
  {
    if accounts == [] then -1
    else if EqualFold(accounts[0].name, name) then 0
    else
      var k := FindByName(accounts[1..], name);
      if k < 0 then -1 else k + 1
  }

  /** The account a login handed up already is: the one with its address, else its name. */
  function AccountByLogin(d: Data, email: string, name: string): (i: int)
    ensures -1 <= i < |d.accounts|
  {
    var byEmail := if Trim(email) != "" then FindByEmail(d.accounts, Trim(email)) else -1;
    if byEmail >= 0 then byEmail else FindByName(d.accounts, Trim(name))
  }

  predicate Live(sh: Share, now: Instant) {
    sh.expiresAt == ZERO_TIME || now < sh.expiresAt
  }

  /** The share a gateway key resolves to at an instant, if any. */
  function ShareByKeyHashAt(shares: seq<Share>, hash: string, now: Instant): (r: Option<Share>)
    ensures r.Some? ==> r.value in shares && r.value.keyHash == hash && Live(r.value, now)
    ensures r.None? ==> forall sh <- shares :: sh.keyHash == hash ==> !Live(sh, now)
  {
    if shares == [] then None
    else if shares[0].keyHash == hash && Live(shares[0], now) then Some(shares[0])
    else ShareByKeyHashAt(shares[1..], hash, now)
  }

  predicate HasShare(shares: seq<Share>, accountId: string, personId: string) {
    exists sh <- shares :: sh.accountId == accountId && sh.personId == personId
  }

  // ------------------------------------------------------------ removing shares

  /** The reasons a share is dropped. */
  datatype Cut =
    | Replaced(accountId: string, personId: string)
    | Revoked(id: string)
    | AccountGone(accountId: string)
    | PersonGone(personId: string)
    | Expired(now: Instant)

  predicate Cuts(cut: Cut, sh: Share) {
    match cut
    case Replaced(a, p) => sh.accountId == a && sh.personId == p
    case Revoked(id) => sh.id == id
    case AccountGone(a) => sh.accountId == a
    case PersonGone(p) => sh.personId == p
    case Expired(now) => !Live(sh, now)
  }

  /** The shares a cut leaves, in their order. */
  function Without(shares: seq<Share>, cut: Cut): seq<Share> {
    if shares == [] then []
    else
      var rest := Without(shares[1..], cut);
      if Cuts(cut, shares[0]) then rest else [shares[0]] + rest
  }

  lemma {:induction false} WithoutMembers(shares: seq<Share>, cut: Cut)
    ensures forall sh :: sh in Without(shares, cut) <==> sh in shares && !Cuts(cut, sh)
    decreases |shares|
  {
    if shares == [] {
    } else {
      WithoutMembers(shares[1..], cut);
      assert shares == [shares[0]] + shares[1..];
    }
  }

  lemma {:induction false} WithoutAppend(shares: seq<Share>, sh: Share, cut: Cut)
    ensures Without(shares + [sh], cut) == Without(shares, cut) + (if Cuts(cut, sh) then [] else [sh])
    decreases |shares|
  {
    if shares == [] {
      assert [] + [sh] == [sh];
    } else {
      assert (shares + [sh])[1..] == shares[1..] + [sh];
      WithoutAppend(shares[1..], sh, cut);
    }
  }

  /** The last share with an id, the one the revoking loop ends up pointing at. */
  function LastShare(shares: seq<Share>, id: string): (i: int)
    ensures -1 <= i < |shares|
    ensures i >= 0 ==> shares[i].id == id && forall j :: i < j < |shares| ==> shares[j].id != id
    ensures i < 0 ==> forall sh <- shares :: sh.id != id
  {
    if shares == [] then -1
    else if shares[|shares| - 1].id == id then |shares| - 1
    else LastShare(shares[..|shares| - 1], id)
  }

  /**
    What the revoked share's slot holds when the activity line is written: the
    kept shares have been moved down over it by then.
   */
  function SlotAfterRevoke(shares: seq<Share>, id: string): Share
    requires LastShare(shares, id) >= 0
  {
    var i := LastShare(shares, id);
    var kept := Without(shares, Revoked(id));
    if i < |kept| then kept[i] else shares[i]
  }

  function ExpiryNotes(d: Data, shares: seq<Share>, now: Instant): seq<Event> {
    if shares == [] then []
    else
      var rest := ExpiryNotes(d, shares[1..], now);
      var sh := shares[0];
      if Live(sh, now) then rest
      else [Event(now, "clawdh", Ended(PersonName(d, sh.personId), AccountName(d, sh.accountId), sh.grantedBy))] + rest
  }

  lemma {:induction false} ExpiryNotesAppend(d: Data, shares: seq<Share>, sh: Share, now: Instant)
    ensures ExpiryNotes(d, shares + [sh], now) == ExpiryNotes(d, shares, now) + ExpiryNotes(d, [sh], now)
    decreases |shares|
  {
    if shares == [] {
      assert [] + [sh] == [sh];
    } else {
      assert (shares + [sh])[1..] == shares[1..] + [sh];
      ExpiryNotesAppend(d, shares[1..], sh, now);
    }
  }

  /** The sweep every transaction begins with. */
  function ExpireShares(d: Data, now: Instant): Data {
    d.(shares := Without(d.shares, Expired(now)), activity := d.activity + ExpiryNotes(d, d.shares, now))
  }

  function PutShare(shares: seq<Share>, sh: Share): seq<Share> {
    Without(shares, Replaced(sh.accountId, sh.personId)) + [sh]
  }

  function AccountsWithout(accounts: seq<Account>, id: string): (r: seq<Account>)
    ensures forall a :: a in r <==> a in accounts && a.id != id
  {
    if accounts == [] then []
    else if accounts[0].id == id then AccountsWithout(accounts[1..], id)
    else [accounts[0]] + AccountsWithout(accounts[1..], id)
  }

  function PeopleWithout(people: seq<Person>, id: string): (r: seq<Person>)
    ensures forall p :: p in r <==> p in people && p.id != id
  {
    if people == [] then []
    else if people[0].id == id then PeopleWithout(people[1..], id)
    else [people[0]] + PeopleWithout(people[1..], id)
  }

  function DevicesOfOthers(devices: seq<Device>, personId: string): (r: seq<Device>)
    ensures forall x :: x in r <==> x in devices && x.personId != personId
  {
    if devices == [] then []
    else if devices[0].personId == personId then DevicesOfOthers(devices[1..], personId)
    else [devices[0]] + DevicesOfOthers(devices[1..], personId)
  }

  function DevicesWithout(devices: seq<Device>, id: string): (r: seq<Device>)
    ensures forall x :: x in r <==> x in devices && x.id != id
  {
    if devices == [] then []
    else if devices[0].id == id then DevicesWithout(devices[1..], id)
    else [devices[0]] + DevicesWithout(devices[1..], id)
  }

  // ------------------------------------------------------------ decisions

  /** One decision, with the ids and hashes minted for it. */
  datatype Op =
    | AddPerson(id: string, name: string, email: string, who: string)
    | RemovePerson(id: string, who: string)
    | Invite(personId: string, codeHash: string, expires: Instant, who: string)
    | Enrol(codeHash: string, deviceId: string, machine: string, tokenHash: string)
    | Issue(accountId: string, personId: string, shareId: string, keyHash: string, duration: int, who: string)
    | Revoke(shareId: string, who: string)
    | RemoveAccount(id: string, who: string)
    | Withdraw(id: string, personId: string)
    | Contribute(email: string, name: string, plan: string, blob: Blob, accountId: string,
                 shareId: string, keyHash: string, personId: string)
    | StoreCredential(accountId: string, rotated: Credential)
    | CutOffDevice(id: string, who: string)
    | CheckIn(deviceId: string)

  datatype Refusal =
    | NoSuchAccount
    | NoSuchPerson
    | NoSuchMachine
    | NoSuchCode
    | CodeUsed
    | CodeExpired
    | NotYours
    | SameSignIn

  function Logged(d: Data, at: Instant, who: string, what: Note): Data {
    d.(activity := d.activity + [Event(at, who, what)])
  }

  function WithoutAccount(d: Data, id: string): Data {
    d.(shares := Without(d.shares, AccountGone(id)), accounts := AccountsWithout(d.accounts, id))
  }

  /** A login handed up for an account the panel holds: refreshed in place when it is a newer sign-in. */
  function Refreshing(a: Account, email: string, plan: string, blob: Blob, personId: string): Result<Account, Refusal> {
    var held := if a.credential.Some? then SignInEnd(a.credential.value) else 0;
    if held > 0 && SignInEnd(blob) > 0 && SignInEnd(blob) <= held then Err(SameSignIn)
    else Ok(a.(credential := Some(blob),
               email := if Trim(email) != "" then Trim(email) else a.email,
               plan := if Trim(plan) != "" then Trim(plan) else a.plan,
               addedBy := if a.addedBy == "" then personId else a.addedBy))
  }

  /** The login itself: added under a new id, or refreshed under the one it has. */
  function TakeLogin(d: Data, email: string, name: string, plan: string, blob: Blob, accountId: string,
                     personId: string, now: Instant): Result<(Data, string), Refusal> {
    var i := AccountByLogin(d, email, name);
    if i < 0 then
      var a := Account(accountId, name, Trim(email), Trim(plan), now, Some(blob), personId);
      Ok((Logged(d.(accounts := d.accounts + [a]), now, PersonName(d, personId), Added(name)), accountId))
    else
      var r := Refreshing(d.accounts[i], email, plan, blob, personId);
      if r.Err? then Err(r.error)
      else Ok((Logged(d.(accounts := d.accounts[i := r.value]), now, PersonName(d, personId), Refreshed(r.value.name)), r.value.id))
  }

  /** The contributor's access to their own login, kept if they already have it. */
  function OwnShare(d: Data, accountId: string, personId: string, shareId: string, keyHash: string, now: Instant): Data {
    if HasShare(d.shares, accountId, personId) then d
    else d.(shares := PutShare(d.shares, Share(shareId, accountId, personId, keyHash, now, ZERO_TIME, PersonName(d, personId))))
  }

  function Decide(d: Data, op: Op, now: Instant): Result<Data, Refusal> {
    match op
    case AddPerson(id, name, email, who) =>
      Ok(Logged(d.(people := d.people + [Person(id, name, email, now)]), now, who, Added(name)))
    case RemovePerson(id, who) =>
      var i := FindPerson(d.people, id);
      if i < 0 then Err(NoSuchPerson)
      else Ok(Logged(d.(shares := Without(d.shares, PersonGone(id)), devices := DevicesOfOthers(d.devices, id),
                        people := PeopleWithout(d.people, id)), now, who, Removed(d.people[i].name)))
    case Invite(personId, codeHash, expires, who) =>
      var i := FindPerson(d.people, personId);
      if i < 0 then Err(NoSuchPerson)
      else Ok(Logged(d.(joinCodes := d.joinCodes + [JoinCode(codeHash, personId, expires, ZERO_TIME, who)]),
                     now, who, Invited(d.people[i].name)))
    case Enrol(codeHash, deviceId, machine, tokenHash) =>
      var i := FindCode(d.joinCodes, codeHash);
      if i < 0 then Err(NoSuchCode)
      else if d.joinCodes[i].usedAt != ZERO_TIME then Err(CodeUsed)
      else if d.joinCodes[i].expiresAt < now then Err(CodeExpired)
      else
        var c := d.joinCodes[i];
        Ok(Logged(d.(joinCodes := d.joinCodes[i := c.(usedAt := now)],
                     devices := d.devices + [Device(deviceId, c.personId, machine, tokenHash, now, now)]),
                  now, PersonName(d, c.personId), SetUp(machine)))
    case Issue(accountId, personId, shareId, keyHash, duration, who) =>
      if FindAccount(d.accounts, accountId) < 0 then Err(NoSuchAccount)
      else if FindPerson(d.people, personId) < 0 then Err(NoSuchPerson)
      else
        var sh := Share(shareId, accountId, personId, keyHash, now, if duration > 0 then now + duration else ZERO_TIME, who);
        Ok(Logged(d.(shares := PutShare(d.shares, sh)), now, who,
                  Gave(PersonName(d, personId), AccountName(d, accountId), if duration > 0 then duration else 0)))
    case Revoke(shareId, who) =>
      var i := LastShare(d.shares, shareId);
      if i < 0 then Ok(d)
      else
        var named := SlotAfterRevoke(d.shares, shareId);
        Ok(Logged(d.(shares := Without(d.shares, Revoked(shareId))), now, who,
                  Took(PersonName(d, named.personId), AccountName(d, named.accountId))))
    case RemoveAccount(id, who) =>
      var i := FindAccount(d.accounts, id);
      if i < 0 then Err(NoSuchAccount)
      else Ok(Logged(WithoutAccount(d, id), now, who, Removed(d.accounts[i].name)))
    case Withdraw(id, personId) =>
      var i := FindAccount(d.accounts, id);
      if i < 0 then Err(NoSuchAccount)
      else if d.accounts[i].addedBy != personId || d.accounts[i].addedBy == "" then Err(NotYours)
      else Ok(Logged(WithoutAccount(d, id), now, PersonName(d, personId), Removed(d.accounts[i].name)))
    case Contribute(email, name, plan, blob, accountId, shareId, keyHash, personId) =>
      var r := TakeLogin(d, email, name, plan, blob, accountId, personId, now);
      if r.Err? then Err(r.error)
      else Ok(OwnShare(r.value.0, r.value.1, personId, shareId, keyHash, now))
    case StoreCredential(accountId, rotated) =>
      var i := FindAccount(d.accounts, accountId);
      if i < 0 || d.accounts[i].credential.None? then Ok(d)
      else Ok(d.(accounts := d.accounts[i := d.accounts[i].(credential := Some(StoreDecision(d.accounts[i].credential.value, rotated)))]))
    case CutOffDevice(id, who) =>
      var i := FindDevice(d.devices, id);
      if i < 0 then Err(NoSuchMachine)
      else Ok(Logged(d.(devices := DevicesWithout(d.devices, id)), now, who, CutOff(d.devices[i].name)))
    case CheckIn(deviceId) =>
      Ok(d.(devices := Seen(d.devices, deviceId, now)))
  }

  function Seen(devices: seq<Device>, id: string, now: Instant): (r: seq<Device>)
    ensures |r| == |devices|
    ensures forall i :: 0 <= i < |r| ==> r[i] == if devices[i].id == id then devices[i].(lastSeen := now) else devices[i]
  {
    if devices == [] then []
    else [if devices[0].id == id then devices[0].(lastSeen := now) else devices[0]] + Seen(devices[1..], id, now)
  }

  /** The activity log keeps its newest lines. */
  function Capped(d: Data): Data {
    if |d.activity| > MAX_ACTIVITY then d.(activity := d.activity[|d.activity| - MAX_ACTIVITY..]) else d
  }

  /** A decision with the two clock readings it was taken at: the sweep's and its own. */
  datatype Txn = Txn(op: Op, swept: Instant, now: Instant)

  /** What one transaction makes of the state it read: the sweep, the decision, the cap. */
  function Commit(d: Data, t: Txn): Result<Data, Refusal> {
    var r := Decide(ExpireShares(d, t.swept), t.op, t.now);
    if r.Ok? then Ok(Capped(r.value)) else r
  }
}

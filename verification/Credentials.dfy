/**
  A Claude login as the gateway rolls it forward, and the stored blob it is read
  from and written back to (cmd/clawdh-server/db.go, internal/gateway/refresh.go).
 */
module Credentials {
  import opened Times
  import D = Doubles

  /** The part of a login the gateway forwards with; `refresh` is single-use. */
  datatype Credential = Credential(access: string, refresh: string, expires: Instant)

  /** How long before its expiry a token is refreshed. */
  const REFRESH_LEAD := 10 * MINUTE

  predicate Stale(c: Credential, now: Instant) {
    c.access == "" || c.expires - REFRESH_LEAD <= now
  }

  predicate NewerThan(c: Credential, o: Credential) {
    o.expires < c.expires
  }

  // ------------------------------------------------------------ the stored blob

  /** A decoded JSON value. Num is a whole number; Fraction any other number. */
  datatype Json =
    | Null
    | Flag(on: bool)
    | Num(n: int)
    | Fraction(r: real)
    | Text(s: string)
    | List(items: seq<Json>)
    | Object(fields: map<string, Json>)

  /** An unsealed blob: bytes that are not a JSON object, or one. */
  datatype Blob = Unreadable | Document(fields: map<string, Json>)

  const OAUTH := "claudeAiOauth"
  const ACCESS := "accessToken"
  const REFRESH := "refreshToken"
  const EXPIRES := "expiresAt"
  const SIGN_IN_END := "refreshTokenExpiresAt"

  /** A string field decodes when it is absent, null or a string. */
  predicate DecodesAsText(o: map<string, Json>, key: string) {
    key in o ==> o[key].Null? || o[key].Text?
  }

  function TextField(o: map<string, Json>, key: string): string {
    if key in o && o[key].Text? then o[key].s else ""
  }

  predicate DecodesAsInt(o: map<string, Json>, key: string) {
    key in o ==> o[key].Null? || o[key].Num?
  }

  function IntField(o: map<string, Json>, key: string): int {
    if key in o && o[key].Num? then o[key].n else 0
  }

  /** The oauth object of a blob when the blob decodes, with null read as empty. */
  function OauthOf(b: Blob): map<string, Json> {
    if b.Document? && OAUTH in b.fields && b.fields[OAUTH].Object? then b.fields[OAUTH].fields else map[]
  }

  /** Whether the blob decodes into the fields the gateway reads. */
  predicate Decodes(b: Blob) {
    && b.Document?
    && (OAUTH in b.fields ==> b.fields[OAUTH].Null? || b.fields[OAUTH].Object?)
    && DecodesAsText(OauthOf(b), ACCESS)
    && DecodesAsText(OauthOf(b), REFRESH)
    && DecodesAsInt(OauthOf(b), EXPIRES)
  }

  /** A stored expiry, in milliseconds, as an instant; nothing positive is "unknown". */
  function FromMillis(ms: int): Instant {
    if ms > 0 then ms * MILLISECOND else ZERO_TIME
  }

  function ToMillis(t: Instant): int {
    t / MILLISECOND
  }

  /** What an expiry reads back as once it has been stored to the millisecond. */
  function Stamp(t: Instant): Instant {
    FromMillis(ToMillis(t))
  }

  /** The tokens in a blob; a blob that does not decode holds none. */
  function ParseCredential(b: Blob): Credential {
    if !Decodes(b) then Credential("", "", ZERO_TIME)
    else
      var o := OauthOf(b);
      Credential(TextField(o, ACCESS), TextField(o, REFRESH), FromMillis(IntField(o, EXPIRES)))
  }

  /** A value decoded without a type and encoded again: its numbers have been doubles in between. */
  function Reencode(j: Json): Json {
    match j
    case Num(n) => Num(D.Rewritten(n))
    case List(items) => List(seq(|items|, i requires 0 <= i < |items| => Reencode(items[i])))
    case Object(fields) => Object(map key | key in fields :: Reencode(fields[key]))
    case _ => j
  }

  function ReencodeAll(fields: map<string, Json>): map<string, Json> {
    map key | key in fields :: Reencode(fields[key])
  }

  /** Every whole number in it is written again as it was. */
  predicate Exact(j: Json) {
    match j
    case Num(n) => D.Rewritten(n) == n
    case List(items) => forall i :: 0 <= i < |items| ==> Exact(items[i])
    case Object(fields) => forall key :: key in fields ==> Exact(fields[key])
    case _ => true
  }

  /** Rotated tokens written into a blob that has been decoded and is encoded again. */
  function UpdateCredential(b: Blob, rotated: Credential): Blob {
    var top := if b.Document? then ReencodeAll(b.fields) else map[];
    var o := ReencodeAll(OauthOf(b));
    var o1 := o[ACCESS := Text(rotated.access)];
    var o2 := if rotated.refresh != "" then o1[REFRESH := Text(rotated.refresh)] else o1;
    var o3 := o2[EXPIRES := Num(ToMillis(rotated.expires))];
    Document(top[OAUTH := Object(o3)])
  }

  /** The instant a stored sign-in stops being refreshable, when the blob says. */
  function SignInEnd(b: Blob): int {
    if b.Document? && (OAUTH in b.fields ==> b.fields[OAUTH].Null? || b.fields[OAUTH].Object?)
       && DecodesAsInt(OauthOf(b), SIGN_IN_END)
    then IntField(OauthOf(b), SIGN_IN_END) else 0
  }

  /**
    What `storeCredential` decides for an account holding `stored`: a stored login
    that is newer stays, any other is rolled forward to `rotated`.
   */
  function StoreDecision(stored: Blob, rotated: Credential): Blob {
    if rotated.expires < ParseCredential(stored).expires then stored else UpdateCredential(stored, rotated)
  }

  // ------------------------------------------------------------ what it keeps

  /** Storing to the millisecond loses less than one, and never rounds up. */
  lemma StampBounds(t: Instant)
    requires t >= ZERO_TIME
    ensures Stamp(t) <= t
    ensures Stamp(t) > t - MILLISECOND || Stamp(t) == ZERO_TIME
  {
    assert t == MILLISECOND * (t / MILLISECOND) + t % MILLISECOND;
  }

  lemma StampMonotone(a: Instant, b: Instant)
    requires a <= b
    ensures Stamp(a) <= Stamp(b)
  {
    assert a / MILLISECOND <= b / MILLISECOND;
  }

  /**
    Parsing what was just written gives the tokens back, the expiry to the
    millisecond; and it decodes exactly when the refresh token was replaced or the
    one kept was readable.
   */
  lemma UpdateThenParse(b: Blob, rotated: Credential)
    ensures Decodes(UpdateCredential(b, rotated)) <==> rotated.refresh != "" || DecodesAsText(OauthOf(b), REFRESH)
    ensures Decodes(UpdateCredential(b, rotated)) ==>
              var got := ParseCredential(UpdateCredential(b, rotated));
              && got.access == rotated.access
              && got.refresh == (if rotated.refresh != "" then rotated.refresh else TextField(OauthOf(b), REFRESH))
              && got.expires == Stamp(rotated.expires)
  {
    var u := UpdateCredential(b, rotated);
    assert OauthOf(u) == u.fields[OAUTH].fields;
  }

  /** A value comes back as it was exactly when every whole number in it does. */
  lemma {:induction false} ReencodeKeepsExactlyWhen(j: Json)
    ensures Reencode(j) == j <==> Exact(j)
    decreases j
  {
    hide D.Rewritten;
    match j
    case List(items) =>
      var r := Reencode(j).items;
      forall i | 0 <= i < |items| ensures r[i] == items[i] <==> Exact(items[i]) {
        ReencodeKeepsExactlyWhen(items[i]);
      }
      assert (forall i :: 0 <= i < |items| ==> r[i] == items[i]) ==> r == items;
    case Object(fields) =>
      var r := Reencode(j).fields;
      forall key | key in fields ensures r[key] == fields[key] <==> Exact(fields[key]) {
        ReencodeKeepsExactlyWhen(fields[key]);
      }
      assert (forall key :: key in fields ==> r[key] == fields[key]) ==> r == fields;
    case _ =>
  }

  /**
    Of everything in the blob that is not one of the three token fields nothing is added
    or dropped, and a field survives exactly when every whole number in it is one that a
    double carries and gives back.
   */
  lemma UpdateDisturbsNothingElse(b: Blob, rotated: Credential, key: string)
    ensures var u := UpdateCredential(b, rotated);
            && u.Document?
            && (b.Document? && key != OAUTH ==>
                  (key in u.fields <==> key in b.fields)
                  && (key in b.fields ==> (u.fields[key] == b.fields[key] <==> Exact(b.fields[key]))))
            && (key !in {ACCESS, REFRESH, EXPIRES} ==>
                  (key in OauthOf(u) <==> key in OauthOf(b))
                  && (key in OauthOf(b) ==> (OauthOf(u)[key] == OauthOf(b)[key] <==> Exact(OauthOf(b)[key]))))
  {
    hide Exact, Reencode;
    var u := UpdateCredential(b, rotated);
    assert OauthOf(u) == u.fields[OAUTH].fields;
    if b.Document? && key in b.fields {
      ReencodeKeepsExactlyWhen(b.fields[key]);
    }
    if key in OauthOf(b) {
      ReencodeKeepsExactlyWhen(OauthOf(b)[key]);
    }
  }

  /** The end of the sign-in survives a rotation when it is within two to the 53rd, as any real one is. */
  lemma SignInEndSurvives(b: Blob, rotated: Credential)
    requires b.Document? && (OAUTH in b.fields ==> b.fields[OAUTH].Null? || b.fields[OAUTH].Object?)
    ensures SignInEnd(UpdateCredential(b, rotated)) == D.Rewritten(SignInEnd(b))
    ensures -D.LIMIT <= SignInEnd(b) <= D.LIMIT ==> SignInEnd(UpdateCredential(b, rotated)) == SignInEnd(b)
  {
    hide D.Rewritten;
    var u := UpdateCredential(b, rotated);
    assert OauthOf(u) == u.fields[OAUTH].fields;
    assert SIGN_IN_END !in {ACCESS, REFRESH, EXPIRES} by { FieldsDiffer(); }
    D.SmallNumbersSurvive(0);
    if -D.LIMIT <= SignInEnd(b) <= D.LIMIT {
      D.SmallNumbersSurvive(SignInEnd(b));
    }
  }

  /** The end of the sign-in is the number the login's own field has, and unknown without one. */
  lemma ASignInEndIsRead(fields: map<string, Json>, n: int)
    ensures SignInEnd(Document(map["claudeAiOauth" := Object(fields["refreshTokenExpiresAt" := Num(n)])])) == n
    ensures "refreshTokenExpiresAt" !in fields ==> SignInEnd(Document(map["claudeAiOauth" := Object(fields)])) == 0
    ensures SignInEnd(Unreadable) == 0
  {
  }

  lemma FieldsDiffer()
    ensures SIGN_IN_END != ACCESS && SIGN_IN_END != REFRESH && SIGN_IN_END != EXPIRES
    ensures ACCESS != REFRESH && REFRESH != EXPIRES && ACCESS != EXPIRES
  {
    assert |SIGN_IN_END| == 21 && |ACCESS| == 11 && |REFRESH| == 12 && |EXPIRES| == 9;
  }

  /** A field that changes: one past two to the 53rd comes back as that power. */
  lemma AWideNumberComesBackChanged(rotated: Credential)
    ensures UpdateCredential(Document(map["id" := Num(D.LIMIT + 1)]), rotated).fields["id"] == Num(D.LIMIT)
  {
    hide D.Rewritten;
    D.TheNextIsLost();
    assert |OAUTH| == 13 && |"id"| == 2;
  }

  lemma FreshIsZeroOrMore(b: Blob)
    ensures ParseCredential(b).expires >= ZERO_TIME
    ensures Stamp(ParseCredential(b).expires) == ParseCredential(b).expires
  {
  }

  /**
    One store never moves the stored expiry back, whatever is stored and whatever
    is written, although the comparison is made against a rounded-down instant;
    and afterwards the stored login is at least as new as the one written.
   */
  lemma StoreNeverGoesBack(stored: Blob, rotated: Credential)
    ensures ParseCredential(StoreDecision(stored, rotated)).expires >= ParseCredential(stored).expires
    ensures rotated.refresh != "" ==> ParseCredential(StoreDecision(stored, rotated)).expires >= Stamp(rotated.expires)
  {
    FreshIsZeroOrMore(stored);
    UpdateThenParse(stored, rotated);
    var held := ParseCredential(stored).expires;
    if rotated.expires < held {
      StampMonotone(rotated.expires, held);
    } else {
      StampMonotone(held, rotated.expires);
    }
  }

  /** The stored blob after several processes' writes, in the order they committed. */
  function StoreAll(stored: Blob, writes: seq<Credential>): Blob
    decreases |writes|
  {
    if writes == [] then stored else StoreAll(StoreDecision(stored, writes[0]), writes[1..])
  }

  /** Over any interleaving of stores the expiry never decreases, and ends as new as every write. */
  lemma {:induction false} InterleavedStoresNeverGoBack(stored: Blob, writes: seq<Credential>)
    ensures ParseCredential(StoreAll(stored, writes)).expires >= ParseCredential(stored).expires
    ensures forall w <- writes :: w.refresh != "" ==> ParseCredential(StoreAll(stored, writes)).expires >= Stamp(w.expires)
    decreases |writes|
  {
    if writes == [] {
    } else {
      StoreNeverGoesBack(stored, writes[0]);
      InterleavedStoresNeverGoBack(StoreDecision(stored, writes[0]), writes[1..]);
      assert writes == [writes[0]] + writes[1..];
    }
  }

  /** A manager never takes its own rotation, read back from the store, for a newer one. */
  lemma OwnRotationIsNotNewer(stored: Blob, mine: Credential)
    requires mine.expires >= ZERO_TIME
    requires ParseCredential(stored).expires <= mine.expires
    ensures !NewerThan(ParseCredential(StoreDecision(stored, mine)), mine)
  {
    UpdateThenParse(stored, mine);
    StampBounds(mine.expires);
  }
}

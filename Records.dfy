/**
 * The rows of the local database (sdios_lti/models.py) and the pure parts
 * of their model classes: consumer lookup, the fixed account parameter set
 * and the shape of generated credentials.
 */
module Records {
  import opened Base
  import opened TextCodecs

  /** Environment UUIDs of the backing service; only compared for equality. */
  type Uuid = nat

  /** One LMS installation with its OAuth key and shared secret. */
  datatype Consumer = Consumer(name: string, key: string, secret: string)

  /** One backing-service template environment exposed to LTI under `key`. */
  datatype EnvironmentMap = EnvironmentMap(name: string, uuid: Uuid, key: string)

  /**
   * Binds the LMS user `ltiUserId` of the consumer with key `consumer` to a
   * backing-service account.  The consumer is referenced by its key, which
   * is unique and never changes.
   */
  datatype UserMap = UserMap(consumer: string, ltiUserId: string, username: string, password: string)

  /** The backing-service connection settings (a single row). */
  datatype Setting = Setting(url: string, username: string, password: string, clientId: string, clientSecret: string)

  /** The field defaults of a fresh `Setting` row. */
  const DEFAULT_SETTING := Setting("127.0.0.1:8000", "", "", "", "")

  /** Consumer names and keys are unique. */
  ghost predicate ConsumersUnique(cs: seq<Consumer>) {
    forall i, j :: 0 <= i < j < |cs| ==> cs[i].name != cs[j].name && cs[i].key != cs[j].key
  }

  /** Environment map names, UUIDs and keys are each unique. */
  ghost predicate EnvironmentMapsUnique(es: seq<EnvironmentMap>) {
    forall i, j :: 0 <= i < j < |es| ==>
      es[i].name != es[j].name && es[i].uuid != es[j].uuid && es[i].key != es[j].key
  }

  /** The (consumer, LTI user id) pair and the backing username are each unique. */
  ghost predicate UserMapsUnique(us: seq<UserMap>) {
    forall i, j :: 0 <= i < j < |us| ==>
      (us[i].consumer != us[j].consumer || us[i].ltiUserId != us[j].ltiUserId) &&
      us[i].username != us[j].username
  }

  /**
   * `Consumer.get_consumer(key)`: the consumer registered under `key`, `None`
   * for `Consumer.DoesNotExist`.
   */
  function GetConsumer(cs: seq<Consumer>, key: string): (r: Option<Consumer>)
    ensures r.None? <==> forall c :: c in cs ==> c.key != key
    ensures r.Some? ==> r.value in cs && r.value.key == key
    ensures r.Some? && ConsumersUnique(cs) ==> forall c :: c in cs && c.key == key ==> c == r.value
    decreases |cs|
  {
    if cs == [] then None
    else if cs[0].key == key then Some(cs[0])
    else GetConsumer(cs[1..], key)
  }

  /** `Consumer.get_secret(key)`: the secret of the unique consumer with that key. */
  function GetSecret(cs: seq<Consumer>, key: string): (r: Option<string>)
    ensures r.None? <==> forall c :: c in cs ==> c.key != key
    ensures ConsumersUnique(cs) ==> forall c :: c in cs && c.key == key ==> r == Some(c.secret)
  {
    match GetConsumer(cs, key)
    case None => None
    case Some(c) => Some(c.secret)
  }

  /** The `"permissions"` object sent with every account. */
  datatype Permissions = Permissions(
    accessDashboard: bool, accessSdis: bool, accessPhysical: bool, accessProfile: bool,
    accessStorage: bool, allowNas: bool, editSdis: bool, shareSdis: bool, shareImages: bool,
    startSdis: bool, viewNavbar: bool, shareNetworks: bool)

  /** The names of the permission flags. */
  datatype Permission =
    | AccessDashboard | AccessSdis | AccessPhysical | AccessProfile | AccessStorage | AllowNas
    | EditSdis | ShareSdis | ShareImages | StartSdis | ViewNavbar | ShareNetworks

  /** The permissions a flag set grants. */
  function Granted(p: Permissions): set<Permission> {
    (if p.accessDashboard then {AccessDashboard} else {}) +
    (if p.accessSdis then {AccessSdis} else {}) +
    (if p.accessPhysical then {AccessPhysical} else {}) +
    (if p.accessProfile then {AccessProfile} else {}) +
    (if p.accessStorage then {AccessStorage} else {}) +
    (if p.allowNas then {AllowNas} else {}) +
    (if p.editSdis then {EditSdis} else {}) +
    (if p.shareSdis then {ShareSdis} else {}) +
    (if p.shareImages then {ShareImages} else {}) +
    (if p.startSdis then {StartSdis} else {}) +
    (if p.viewNavbar then {ViewNavbar} else {}) +
    (if p.shareNetworks then {ShareNetworks} else {})
  }

  /**
   * The account parameters sent on creation and on every repair.  The flag
   * keeps the source's key name `id_tenancy_admin`.
   */
  datatype UserParams = UserParams(
    username: string, password: string, tenancy: int, displayName: string, email: string,
    idTenancyAdmin: bool, isActive: bool, isSuperuser: bool, permissions: Permissions)

  /** `UserMap.__user_params`: an active, non-privileged account that may only use and start environments. */
  function UserParamsFor(username: string, password: string, tenancy: int): (p: UserParams)
    ensures p.username == username && p.password == password && p.tenancy == tenancy
    ensures p.displayName == username && p.email == ""
    ensures p.isActive && !p.isSuperuser && !p.idTenancyAdmin
    ensures Granted(p.permissions) == {AccessSdis, AllowNas, StartSdis}
  {
    UserParams(username, password, tenancy, username, "", false, true, false,
      Permissions(false, true, false, false, false, true, false, false, false, true, false, false))
  }

  const USERNAME_PREFIX := "SDIOS-LTI-"

  /**
   * `"SDIOS-LTI-{}".format(os.urandom(8).encode("hex"))` for the random bytes
   * `random`: the prefix and two lower-case hexadecimal digits per byte, from
   * which the bytes can be read back (distinct draws give distinct names).
   */
  function GeneratedUsername(random: Bytes): (r: string)
    ensures |r| == |USERNAME_PREFIX| + 2 * |random|
    ensures r[..|USERNAME_PREFIX|] == USERNAME_PREFIX
    ensures forall i :: |USERNAME_PREFIX| <= i < |r| ==> IsLowerHexDigit(r[i])
    ensures ParseLowerHex(r[|USERNAME_PREFIX|..]) == Some(random)
  {
    ParseLowerHexInverse(random);
    var r := USERNAME_PREFIX + LowerHex(random);
    assert r[|USERNAME_PREFIX|..] == LowerHex(random);
    r
  }

  /** Python 2's `string.letters` in the C locale, `string.digits` and `string.punctuation`. */
  const LOWERCASE := "abcdefghijklmnopqrstuvwxyz"
  const UPPERCASE := "ABCDEFGHIJKLMNOPQRSTUVWXYZ"
  const LETTERS := LOWERCASE + UPPERCASE
  const DIGITS := "0123456789"
  const PUNCTUATION := "!\"#$%&'()*+,-./:;<=>?@[\\]^_`{|}~"

  /**
   * The random draws behind one password: the indices `random.choice` picks
   * for 10 letters, 3 digits and 3 punctuation characters, and the indices
   * `random.sample` picks from the shrinking pool of those 16 characters.
   */
  datatype PasswordDraw = PasswordDraw(letters: seq<nat>, digits: seq<nat>, punctuation: seq<nat>, picks: seq<nat>)

  /** Every index lies in its alphabet or pool: the range of the random calls. */
  predicate WellFormedDraw(d: PasswordDraw) {
    && |d.letters| == 10 && (forall i :: 0 <= i < 10 ==> d.letters[i] < |LETTERS|)
    && |d.digits| == 3 && (forall i :: 0 <= i < 3 ==> d.digits[i] < |DIGITS|)
    && |d.punctuation| == 3 && (forall i :: 0 <= i < 3 ==> d.punctuation[i] < |PUNCTUATION|)
    && |d.picks| == 16 && (forall i :: 0 <= i < 16 ==> d.picks[i] < 16 - i)
  }

  /** `"".join(random.choice(alphabet) for x in range(n))` for the chosen indices. */
  function Choose(alphabet: string, indices: seq<nat>): (r: string)
    requires forall i :: 0 <= i < |indices| ==> indices[i] < |alphabet|
    ensures |r| == |indices|
    ensures forall i :: 0 <= i < |r| ==> r[i] in alphabet
  {
    seq(|indices|, i requires 0 <= i < |indices| => alphabet[indices[i]])
  }

  /** `random.sample(pool, len(pool))`: repeatedly take the picked element out of the pool. */
  function Sample(pool: string, picks: seq<nat>): (r: string)
    requires |picks| == |pool|
    requires forall i :: 0 <= i < |picks| ==> picks[i] < |pool| - i
    ensures multiset(r) == multiset(pool)
    decreases |pool|
  {
    if pool == [] then []
    else
      var j := picks[0];
      var rest := pool[..j] + pool[j + 1..];
      assert pool == pool[..j] + [pool[j]] + pool[j + 1..];
      [pool[j]] + Sample(rest, picks[1..])
  }

  /** The 16 characters chosen before shuffling. */
  function Chosen(d: PasswordDraw): string
    requires WellFormedDraw(d)
  {
    Choose(LETTERS, d.letters) + Choose(DIGITS, d.digits) + Choose(PUNCTUATION, d.punctuation)
  }

  /** The three character classes of a generated password. */
  predicate IsLetter(c: char) { ('a' <= c <= 'z') || ('A' <= c <= 'Z') }
  predicate IsDigit(c: char) { '0' <= c <= '9' }
  predicate IsPunctuation(c: char) { ('!' <= c <= '/') || (':' <= c <= '@') || ('[' <= c <= '`') || ('{' <= c <= '~') }

  lemma LowercaseRange()
    ensures forall i :: 0 <= i < |LOWERCASE| ==> 'a' <= LOWERCASE[i] <= 'z'
  {
  }

  lemma UppercaseRange()
    ensures forall i :: 0 <= i < |UPPERCASE| ==> 'A' <= UPPERCASE[i] <= 'Z'
  {
  }

  /** Each alphabet lies in its own class and in neither of the other two. */
  lemma LetterClass()
    ensures forall c :: c in LETTERS ==> IsLetter(c) && !IsDigit(c) && !IsPunctuation(c)
  {
    LowercaseRange();
    UppercaseRange();
    forall c | c in LETTERS
      ensures IsLetter(c) && !IsDigit(c) && !IsPunctuation(c)
    {
      var i :| 0 <= i < |LETTERS| && LETTERS[i] == c;
      if i < |LOWERCASE| {
        assert c == LOWERCASE[i];
      } else {
        assert c == UPPERCASE[i - |LOWERCASE|];
      }
    }
  }

  lemma DigitClass()
    ensures forall c :: c in DIGITS ==> IsDigit(c) && !IsLetter(c) && !IsPunctuation(c)
  {
    assert forall i :: 0 <= i < |DIGITS| ==> '0' <= DIGITS[i] <= '9';
  }

  lemma PunctuationClass()
    ensures forall c :: c in PUNCTUATION ==> IsPunctuation(c) && !IsLetter(c) && !IsDigit(c)
  {
    assert forall i :: 0 <= i < |PUNCTUATION| ==> IsPunctuation(PUNCTUATION[i]) && !IsLetter(PUNCTUATION[i]) && !IsDigit(PUNCTUATION[i]);
  }

  /** The number of characters of `s` that satisfy `p`. */
  function CountIf(s: string, p: char -> bool): nat
    decreases |s|
  {
    if s == [] then 0 else (if p(s[0]) then 1 else 0) + CountIf(s[1..], p)
  }

  lemma {:induction false} CountIfAppend(s: string, t: string, p: char -> bool)
    ensures CountIf(s + t, p) == CountIf(s, p) + CountIf(t, p)
    decreases |s|
  {
    if s == [] {
      assert s + t == t;
    } else {
      assert (s + t)[1..] == s[1..] + t;
      CountIfAppend(s[1..], t, p);
    }
  }

  /** Removing the character at `k` removes its contribution to the count. */
  lemma CountIfRemove(t: string, k: nat, p: char -> bool)
    requires k < |t|
    ensures CountIf(t, p) == (if p(t[k]) then 1 else 0) + CountIf(t[..k] + t[k + 1..], p)
  {
    var a, b := t[..k], t[k + 1..];
    var m := [t[k]] + b;
    assert t == a + m;
    CountIfAppend(a, m, p);
    assert m[0] == t[k] && m[1..] == b;
    CountIfAppend(a, b, p);
  }

  /** Removing the character at `k` removes one copy of it from the multiset. */
  lemma MultisetRemove(t: string, k: nat)
    requires k < |t|
    ensures multiset(t[..k] + t[k + 1..]) == multiset(t) - multiset{t[k]}
  {
    assert t == t[..k] + [t[k]] + t[k + 1..];
  }

  /** The first character of `s` sits at some position `k` of a permutation `t`, and the rests are permutations. */
  lemma PermutationPick(s: string, t: string) returns (k: nat)
    requires multiset(s) == multiset(t) && s != []
    ensures k < |t| && t[k] == s[0] && multiset(s[1..]) == multiset(t[..k] + t[k + 1..])
  {
    assert s[0] in multiset(t);
    k :| 0 <= k < |t| && t[k] == s[0];
    MultisetRemove(t, k);
    assert s == [s[0]] + s[1..];
    assert multiset(s) == multiset{s[0]} + multiset(s[1..]);
  }

  /** How many characters satisfy `p` depends only on the multiset of characters. */
  lemma {:induction false} CountIfPermutation(s: string, t: string, p: char -> bool)
    requires multiset(s) == multiset(t)
    ensures CountIf(s, p) == CountIf(t, p)
    decreases |s|
  {
    if s == [] {
      assert |t| == |multiset(t)| == 0;
    } else {
      var k := PermutationPick(s, t);
      CountIfPermutation(s[1..], t[..k] + t[k + 1..], p);
      CountIfRemove(t, k, p);
    }
  }

  /** A string all of whose characters satisfy `p` (or none do) has `|s|` (or 0) of them. */
  lemma {:induction false} CountIfUniform(s: string, p: char -> bool)
    ensures (forall i :: 0 <= i < |s| ==> p(s[i])) ==> CountIf(s, p) == |s|
    ensures (forall i :: 0 <= i < |s| ==> !p(s[i])) ==> CountIf(s, p) == 0
    decreases |s|
  {
    if s != [] {
      CountIfUniform(s[1..], p);
    }
  }

  /** The count over three concatenated strings is the sum of the three counts. */
  lemma CountIfThree(a: string, b: string, c: string, p: char -> bool)
    ensures CountIf(a + b + c, p) == CountIf(a, p) + CountIf(b, p) + CountIf(c, p)
  {
    CountIfAppend(a + b, c, p);
    CountIfAppend(a, b, p);
  }

  /** The chosen characters are 10 letters, 3 digits and 3 punctuation characters. */
  lemma ChosenClasses(d: PasswordDraw)
    requires WellFormedDraw(d)
    ensures |Chosen(d)| == 16
    ensures CountIf(Chosen(d), IsLetter) == 10
    ensures CountIf(Chosen(d), IsDigit) == 3
    ensures CountIf(Chosen(d), IsPunctuation) == 3
  {
    var l, g, p := Choose(LETTERS, d.letters), Choose(DIGITS, d.digits), Choose(PUNCTUATION, d.punctuation);
    assert Chosen(d) == l + g + p;
    ChosenLetters(l, g, p);
    ChosenDigits(l, g, p);
    ChosenPunctuation(l, g, p);
  }

  lemma ChosenLetters(l: string, g: string, p: string)
    requires forall c :: c in l ==> c in LETTERS
    requires forall c :: c in g ==> c in DIGITS
    requires forall c :: c in p ==> c in PUNCTUATION
    ensures CountIf(l + g + p, IsLetter) == |l|
  {
    LetterClass();
    DigitClass();
    PunctuationClass();
    CountIfThree(l, g, p, IsLetter);
    CountIfUniform(l, IsLetter);
    CountIfUniform(g, IsLetter);
    CountIfUniform(p, IsLetter);
  }

  lemma ChosenDigits(l: string, g: string, p: string)
    requires forall c :: c in l ==> c in LETTERS
    requires forall c :: c in g ==> c in DIGITS
    requires forall c :: c in p ==> c in PUNCTUATION
    ensures CountIf(l + g + p, IsDigit) == |g|
  {
    LetterClass();
    DigitClass();
    PunctuationClass();
    CountIfThree(l, g, p, IsDigit);
    CountIfUniform(l, IsDigit);
    CountIfUniform(g, IsDigit);
    CountIfUniform(p, IsDigit);
  }

  lemma ChosenPunctuation(l: string, g: string, p: string)
    requires forall c :: c in l ==> c in LETTERS
    requires forall c :: c in g ==> c in DIGITS
    requires forall c :: c in p ==> c in PUNCTUATION
    ensures CountIf(l + g + p, IsPunctuation) == |p|
  {
    LetterClass();
    DigitClass();
    PunctuationClass();
    CountIfThree(l, g, p, IsPunctuation);
    CountIfUniform(l, IsPunctuation);
    CountIfUniform(g, IsPunctuation);
    CountIfUniform(p, IsPunctuation);
  }

  /**
   * The generated password: 16 characters, a permutation of the chosen
   * ones, hence exactly 10 letters, 3 digits and 3 punctuation characters.
   */
  function GeneratedPassword(d: PasswordDraw): (pw: string)
    requires WellFormedDraw(d)
    ensures |pw| == 16
    ensures multiset(pw) == multiset(Chosen(d))
    ensures CountIf(pw, IsLetter) == 10 && CountIf(pw, IsDigit) == 3 && CountIf(pw, IsPunctuation) == 3
  {
    ChosenClasses(d);
    var pw := Sample(Chosen(d), d.picks);
    assert |pw| == |multiset(pw)| == |multiset(Chosen(d))| == 16;
    CountIfPermutation(pw, Chosen(d), IsLetter);
    CountIfPermutation(pw, Chosen(d), IsDigit);
    CountIfPermutation(pw, Chosen(d), IsPunctuation);
    pw
  }
}

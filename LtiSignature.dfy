/**
 * Validation of an LTI 1.0 launch (sdios_lti/utils.py): the required keys
 * and their fixed values, the normalised parameter string and signature
 * base string of OAuth Core 1.0 sections 9.1.1 and 9.1.3, the signing key
 * of section 9.2, and the final comparison of signatures.
 *
 * As in the source, parameters are sorted as whole raw `name=value` byte
 * strings and never decoded or re-encoded.
 */
module LtiSignature {
  import opened Base
  import opened Sequences
  import opened Ordering
  import opened Percent
  import opened TextCodecs
  import opened Records

  /** The POST values of the request (`request.POST`). */
  type Post = map<string, string>

  /** A key whose value is fixed, with the message reported for any other value. */
  datatype FixedValue = FixedValue(key: string, value: string, message: string)

  /** The keys with fixed values, in declaration order. */
  const FIXED_VALUES: seq<FixedValue> := [
    FixedValue("oauth_signature_method", "HMAC-SHA1", "only HMAC-SHA1 is supported"),
    FixedValue("lti_message_type", "basic-lti-launch-request", "only supported message type is basic launch request"),
    FixedValue("lti_version", "LTI-1p0", "only LTI version 1.0/1.1 supported")
  ]

  /** The consumer key, the signature and the keys with fixed values. */
  const REQUIRED_KEYS: seq<string> :=
    ["oauth_consumer_key", "oauth_signature", "oauth_signature_method", "lti_message_type", "lti_version"]

  /** The first problem found with the keys of a launch. */
  datatype KeyProblem =
    | MissingKeys(names: seq<string>)
    | WrongValue(index: nat, provided: string)  // the rule FIXED_VALUES[index] failed

  /** The keys of `keys` that `post` lacks, in the order of `keys`. */
  function Absent(keys: seq<string>, post: Post): (r: seq<string>)
    ensures forall i :: 0 <= i < |r| ==> r[i] in keys && r[i] !in post
    ensures forall i :: 0 <= i < |keys| && keys[i] !in post ==> keys[i] in r
    decreases |keys|
  {
    if keys == [] then []
    else (if keys[0] in post then [] else [keys[0]]) + Absent(keys[1..], post)
  }

  /** Each absent key is reported as often as it is required, and a present one never. */
  lemma {:induction false} AbsentCount(keys: seq<string>, post: Post, k: string)
    ensures multiset(Absent(keys, post))[k] == if k in post then 0 else multiset(keys)[k]
    decreases |keys|
  {
    if keys != [] {
      AbsentCount(keys[1..], post, k);
      var h: seq<string> := if keys[0] in post then [] else [keys[0]];
      var rest := Absent(keys[1..], post);
      assert Absent(keys, post) == h + rest;
      assert multiset(h + rest) == multiset(h) + multiset(rest);
      assert keys == [keys[0]] + keys[1..];
      assert multiset(keys) == multiset{keys[0]} + multiset(keys[1..]);
    }
  }

  /** The index of the first rule of `rules` whose key has another value in `post`. */
  function FirstWrongValue(post: Post, rules: seq<FixedValue>): (r: Option<nat>)
    requires forall i :: 0 <= i < |rules| ==> rules[i].key in post
    ensures r.None? <==> forall i :: 0 <= i < |rules| ==> post[rules[i].key] == rules[i].value
    ensures r.Some? ==> r.value < |rules| && post[rules[r.value].key] != rules[r.value].value
    ensures r.Some? ==> forall i :: 0 <= i < r.value ==> post[rules[i].key] == rules[i].value
    decreases |rules|
  {
    if rules == [] then None
    else if post[rules[0].key] != rules[0].value then Some(0)
    else
      match FirstWrongValue(post, rules[1..])
      case None => None
      case Some(i) => Some(i + 1)
  }

  /** Every rule's key is among the required keys, so it is present once those are. */
  predicate RulesCovered(required: seq<string>, rules: seq<FixedValue>) {
    forall i :: 0 <= i < |rules| ==> rules[i].key in required
  }

  /**
   * `__validate_keys` for the required keys `required` and the rules
   * `rules`: every required key must be present, and the missing ones are
   * reported together, sorted.  Only then are the fixed values checked, and
   * the first one that differs, in declaration order, is reported with the
   * value provided.
   */
  function CheckKeysOf(post: Post, required: seq<string>, rules: seq<FixedValue>): (r: Option<KeyProblem>)
    requires RulesCovered(required, rules)
    ensures r.None? ==> forall i :: 0 <= i < |required| ==> required[i] in post
    ensures r.Some? && r.value.WrongValue? ==> r.value.index < |rules|
  {
    var missing := Absent(required, post);
    if missing != [] then
      Some(MissingKeys(Sort(missing, LexLe)))
    else
      match FirstWrongValue(post, rules)
      case None => None
      case Some(i) => Some(WrongValue(i, post[rules[i].key]))
  }

  /**
   * Missing keys are reported exactly when some required key is absent,
   * and then all of them, each as often as it is required, sorted.
   */
  lemma CheckKeysMissing(post: Post, required: seq<string>, rules: seq<FixedValue>)
    requires RulesCovered(required, rules)
    ensures var r := CheckKeysOf(post, required, rules);
      (r.Some? && r.value.MissingKeys?) <==> exists k :: k in required && k !in post
    ensures var r := CheckKeysOf(post, required, rules);
      r.Some? && r.value.MissingKeys? ==>
        Sorted(r.value.names, LexLe) && multiset(r.value.names) == multiset(Absent(required, post))
  {
    var missing := Absent(required, post);
    if missing != [] {
      LexLeIsTotalOrder();
      SortSorted(missing, LexLe);
    } else {
    }
  }

  /**
   * With every required key present, the rules are checked in order and
   * the first one violated is reported with the value provided; when none
   * is violated the keys are accepted.
   */
  lemma CheckKeysValues(post: Post, required: seq<string>, rules: seq<FixedValue>)
    requires RulesCovered(required, rules)
    requires forall k :: k in required ==> k in post
    ensures forall i :: 0 <= i < |rules| ==> rules[i].key in post
    ensures var r := CheckKeysOf(post, required, rules);
      r.Some? ==> (r.value.WrongValue? && r.value.index < |rules| &&
        var i := r.value.index;
        r.value.provided == post[rules[i].key] != rules[i].value &&
        forall j :: 0 <= j < i ==> post[rules[j].key] == rules[j].value)
    ensures CheckKeysOf(post, required, rules).None? <==>
      forall i :: 0 <= i < |rules| ==> post[rules[i].key] == rules[i].value
  {
  }

  /** The source's rules are covered by its required keys, of which the first two are read later. */
  lemma SourceKeyLists()
    ensures RulesCovered(REQUIRED_KEYS, FIXED_VALUES)
    ensures REQUIRED_KEYS[0] == "oauth_consumer_key" && REQUIRED_KEYS[1] == "oauth_signature"
  {
    assert forall i :: 0 <= i < |FIXED_VALUES| ==> FIXED_VALUES[i].key == REQUIRED_KEYS[i + 2];
  }

  /** `__validate_keys` itself: the source's required keys and fixed-value rules. */
  function CheckKeys(post: Post): (r: Option<KeyProblem>)
    ensures r.None? ==> "oauth_consumer_key" in post && "oauth_signature" in post
    ensures r.Some? && r.value.WrongValue? ==> r.value.index < |FIXED_VALUES|
  {
    SourceKeyLists();
    var r := CheckKeysOf(post, REQUIRED_KEYS, FIXED_VALUES);
    assert r.None? ==> REQUIRED_KEYS[0] in post && REQUIRED_KEYS[1] in post;
    r
  }

  /** The text of the `BadRequest` raised for a key problem. */
  function ProblemMessage(p: KeyProblem): string
    requires p.WrongValue? ==> p.index < |FIXED_VALUES|
  {
    match p
    case MissingKeys(names) => MissingMessage(names)
    case WrongValue(i, provided) => ValueMessage(FIXED_VALUES[i].message, provided)
  }

  const MISSING_PREFIX := "Missing keys: "

  /** `"Missing keys: {}".format(",".join(names))`. */
  function MissingMessage(names: seq<string>): string {
    MISSING_PREFIX + Join(names, ',')
  }

  /**
   * The message for missing keys lists exactly the missing names: its text
   * after the prefix splits at commas back into the names.
   */
  lemma MissingMessageNames(names: seq<string>)
    requires names != []
    requires forall i :: 0 <= i < |names| ==> ',' !in names[i]
    ensures var m := MissingMessage(names);
      |m| >= |MISSING_PREFIX| && m[..|MISSING_PREFIX|] == MISSING_PREFIX &&
      Split(m[|MISSING_PREFIX|..], ',') == names
  {
    SplitJoin(names, ',');
    assert MissingMessage(names)[|MISSING_PREFIX|..] == Join(names, ',');
  }

  /** No required key contains a comma, so the missing names can be read back. */
  lemma RequiredKeysHaveNoComma(k: string)
    requires k in REQUIRED_KEYS
    ensures ',' !in k
  {
    var i :| 0 <= i < |REQUIRED_KEYS| && REQUIRED_KEYS[i] == k;
    if i == 0 {
    } else if i == 1 {
    } else if i == 2 {
    } else if i == 3 {
    } else {
    }
  }

  /** `"{} (\"{}\" provided)".format(message, htmlescape(provided))`. */
  function ValueMessage(message: string, provided: string): string {
    message + " (\"" + HtmlEscape(provided) + "\" provided)"
  }

  /** The message for a wrong value carries the provided value, escaped so that it can be recovered. */
  lemma ValueMessageProvided(message: string, provided: string)
    ensures var m := ValueMessage(message, provided); var n := |message| + 3;
      |m| >= n + 11 && m[..|message|] == message &&
      HtmlUnescape(m[n..|m| - 11]) == provided
  {
    var e := HtmlEscape(provided);
    var m := ValueMessage(message, provided);
    EscapeLength(provided);
    assert m[|message| + 3..|m| - 11] == e;
    assert m[..|message|] == message;
    UnescapeEscape(provided);
  }

  lemma {:induction false} EscapeLength(s: string)
    ensures |HtmlEscape(s)| >= |s|
    decreases |s|
  {
    if s != [] {
      EscapeLength(s[1..]);
    }
  }

  /** Raw byte order of parameter entries (Python's `bytes` comparison). */
  predicate ByteLe(a: Bytes, b: Bytes) {
    LexLe(a, b)
  }

  lemma ByteLeIsTotalOrder()
    ensures TotalOrder(ByteLe)
  {
    LexLeIsTotalOrder();
  }

  const ENCODED_SPACE: Bytes := "%20"
  const SIGNATURE_NAME: Bytes := "oauth_signature"
  const POST_METHOD: Bytes := "POST"

  /** The body entries: `+` is first rewritten to `%20`, then the body is split at `&`. */
  function BodyEntries(body: Bytes): seq<Bytes> {
    Split<byte>(ReplaceAll<byte>(body, '+', ENCODED_SPACE), '&')
  }

  /** The query entries: none for an empty query string, its `&`-separated pieces otherwise. */
  function QueryEntries(query: Bytes): seq<Bytes> {
    if query == [] then [] else Split<byte>(query, '&')
  }

  /** All entries of a request, body first. */
  function Entries(body: Bytes, query: Bytes): seq<Bytes> {
    BodyEntries(body) + QueryEntries(query)
  }

  /** The name of an entry: the bytes before its first `=`, or the whole entry. */
  function EntryName(e: Bytes): Bytes {
    Split<byte>(e, '=')[0]
  }

  predicate IsSignatureEntry(e: Bytes) {
    EntryName(e) == SIGNATURE_NAME
  }

  /** The entries, in order, without those named `oauth_signature`. */
  function DropSignature(parts: seq<Bytes>): (r: seq<Bytes>)
    ensures forall i :: 0 <= i < |r| ==> !IsSignatureEntry(r[i])
    ensures forall e :: multiset(r)[e] == if IsSignatureEntry(e) then 0 else multiset(parts)[e]
    decreases |parts|
  {
    if parts == [] then []
    else
      assert parts == [parts[0]] + parts[1..];
      (if IsSignatureEntry(parts[0]) then [] else [parts[0]]) + DropSignature(parts[1..])
  }

  /** Dropping entries from a sorted sequence keeps it sorted. */
  lemma {:induction false} DropSignatureSorted(parts: seq<Bytes>)
    requires Sorted(parts, ByteLe)
    ensures Sorted(DropSignature(parts), ByteLe)
    decreases |parts|
  {
    if parts != [] {
      var rest := DropSignature(parts[1..]);
      DropSignatureSorted(parts[1..]);
      if !IsSignatureEntry(parts[0]) {
        ByteLeIsTotalOrder();
        if rest != [] {
          DropSignatureKeeps(parts[1..], rest[0]);
          var j :| 0 <= j < |parts[1..]| && parts[1..][j] == rest[0];
          SortedPairs(parts, ByteLe, 0, j + 1);
        }
        SortedCons(parts[0], rest, ByteLe);
      }
    }
  }

  /** Every entry that survives was an entry of the input. */
  lemma DropSignatureKeeps(parts: seq<Bytes>, e: Bytes)
    requires e in DropSignature(parts)
    ensures e in parts
  {
    assert multiset(DropSignature(parts))[e] > 0;
  }

  /** The entries that are signed: sorted by raw bytes, without the signature itself. */
  function SignedEntries(parts: seq<Bytes>): (r: seq<Bytes>)
    ensures Sorted(r, ByteLe)
    ensures forall e :: multiset(r)[e] == if IsSignatureEntry(e) then 0 else multiset(parts)[e]
  {
    ByteLeIsTotalOrder();
    SortSorted(parts, ByteLe);
    DropSignatureSorted(Sort(parts, ByteLe));
    DropSignature(Sort(parts, ByteLe))
  }

  /** `__normalize_request_parameters(post_body, query)`. */
  function NormalizeParameters(body: Bytes, query: Bytes): Bytes {
    Join<byte>(SignedEntries(Entries(body, query)), '&')
  }

  /**
   * The body entries are the pieces of the rewritten body and contain no
   * `+`; the query entries are the pieces of the query string as it came.
   */
  lemma EntriesOfRequest(body: Bytes, query: Bytes)
    ensures Join<byte>(BodyEntries(body), '&') == ReplaceAll<byte>(body, '+', ENCODED_SPACE)
    ensures forall i :: 0 <= i < |BodyEntries(body)| ==> '+' !in BodyEntries(body)[i]
    ensures query == [] ==> QueryEntries(query) == []
    ensures query != [] ==> Join<byte>(QueryEntries(query), '&') == query
  {
    var rewritten := ReplaceAll<byte>(body, '+', ENCODED_SPACE);
    assert '+' !in ENCODED_SPACE;
    assert '+' !in rewritten;
    JoinSplit<byte>(rewritten, '&');
    JoinSplit<byte>(query, '&');
    forall i | 0 <= i < |BodyEntries(body)| ensures '+' !in BodyEntries(body)[i] {
      if '+' in BodyEntries(body)[i] {
        JoinIncludes<byte>(BodyEntries(body), '&', i, '+');
      }
    }
  }

  /** Every entry is an `&`-free piece, so the normalised string splits back into the signed entries. */
  lemma NormalizedSplitsBack(body: Bytes, query: Bytes)
    requires SignedEntries(Entries(body, query)) != []
    ensures Split<byte>(NormalizeParameters(body, query), '&') == SignedEntries(Entries(body, query))
  {
    var parts := Entries(body, query);
    var r := SignedEntries(parts);
    forall i | 0 <= i < |r| ensures '&' !in r[i] {
      assert multiset(r)[r[i]] > 0;
      assert r[i] in parts;
    }
    SplitJoin<byte>(r, '&');
  }

  /**
   * The normalised string depends only on the multiset of entries: any
   * reordering of the body and query parameters gives the same string.
   */
  lemma NormalizeOrderIndependent(body: Bytes, query: Bytes, body': Bytes, query': Bytes)
    requires multiset(Entries(body, query)) == multiset(Entries(body', query'))
    ensures NormalizeParameters(body, query) == NormalizeParameters(body', query')
  {
    ByteLeIsTotalOrder();
    SortDependsOnMultiset(Entries(body, query), Entries(body', query'), ByteLe);
  }

  /** The scheme of the request URL: `https` exactly on port 443. */
  function Scheme(port: int): string {
    if port == 443 then "https" else "http"
  }

  /** The UTF-8 bytes of `scheme://host` followed by the path. */
  function RequestUrl(port: int, host: string, path: string): (r: Bytes)
    ensures port == 443 ==> |r| >= 8 && r[..8] == "https://"
    ensures port != 443 ==> |r| >= 7 && r[..7] == "http://"
  {
    var prefix := Scheme(port) + "://";
    assert forall i :: 0 <= i < |prefix| ==> prefix[i] as int < 0x80;
    Utf8AsciiPrefix(prefix, host + path);
    assert prefix + host + path == prefix + (host + path);
    Utf8(prefix + host + path)
  }

  /** `__create_signature_base_string`: the three percent-encoded parts joined with `&`. */
  function BaseString(params: Bytes, port: int, host: string, path: string): Bytes {
    Join<byte>([Encode(POST_METHOD), Encode(RequestUrl(port, host, path)), Encode(params)], '&')
  }

  /**
   * The base string is `POST&`, the encoded URL, `&` and the encoded
   * parameters: it has exactly three `&`-separated parts, each of which
   * decodes back to its input.
   */
  lemma BaseStringParts(params: Bytes, port: int, host: string, path: string)
    ensures var b := BaseString(params, port, host, path);
      Split<byte>(b, '&') == [POST_METHOD, Encode(RequestUrl(port, host, path)), Encode(params)] &&
      b[..5] == "POST&" &&
      Decode(Split<byte>(b, '&')[1]) == Some(RequestUrl(port, host, path)) &&
      Decode(Split<byte>(b, '&')[2]) == Some(params)
  {
    var url := Encode(RequestUrl(port, host, path));
    var enc := Encode(params);
    EncodePost();
    EncodedHasNoAmpersand(RequestUrl(port, host, path));
    EncodedHasNoAmpersand(params);
    ThreeParts(POST_METHOD, url, enc);
    DecodeEncode(RequestUrl(port, host, path));
    DecodeEncode(params);
  }

  /** `POST` is made of unreserved bytes only, so encoding leaves it as it is. */
  lemma EncodePost()
    ensures Encode(POST_METHOD) == POST_METHOD
  {
    EncodeUnreserved(POST_METHOD);
  }

  /** No encoded string holds a raw `&`. */
  lemma EncodedHasNoAmpersand(s: Bytes)
    ensures '&' !in Encode(s)
  {
    var r := Encode(s);
    assert forall i :: 0 <= i < |r| ==> r[i] != '&';
  }

  /** Three `&`-free parts joined with `&` split back into themselves, and the first part leads. */
  lemma ThreeParts(a: Bytes, b: Bytes, c: Bytes)
    requires '&' !in a && '&' !in b && '&' !in c
    ensures Split<byte>(Join<byte>([a, b, c], '&'), '&') == [a, b, c]
    ensures Join<byte>([a, b, c], '&')[..|a| + 1] == a + [('&' as byte)]
  {
    var xs: seq<Bytes> := [a, b, c];
    assert forall i :: 0 <= i < |xs| ==> '&' !in xs[i];
    SplitJoin<byte>(xs, '&');
    assert Join<byte>(xs, '&') == a + [('&' as byte)] + Join<byte>(xs[1..], '&');
  }

  /**
   * The HTTP metadata the validator reads: the query string, the server
   * port (`None` when it is absent or not a number) and the host header
   * (`None` when it is absent).
   */
  datatype Meta = Meta(queryString: Bytes, serverPort: Option<int>, httpHost: Option<string>)

  /**
   * The library functions the validator calls: HMAC-SHA1 (key, message),
   * `urllib.parse.unquote` and `base64.b64decode` (`None` when it raises).
   */
  datatype Primitives = Primitives(
    hmacSha1: (Bytes, Bytes) -> Bytes,
    unquote: string -> string,
    b64decode: string -> Option<Bytes>)

  /** The signing key: the encoded consumer secret and `&` (the token secret is empty). */
  function SigningKey(secret: string): (k: Bytes)
    ensures |k| > 0 && k[|k| - 1] == '&' && Decode(k[..|k| - 1]) == Some(Utf8(secret))
  {
    DecodeEncode(Utf8(secret));
    assert (Encode(Utf8(secret)) + [('&' as byte)])[..|Encode(Utf8(secret))|] == Encode(Utf8(secret));
    Encode(Utf8(secret)) + [('&' as byte)]
  }

  /** Why a launch is unauthorized. */
  datatype Rejection = UnknownConsumer | SignatureMismatch

  /** The text of the `UnauthorizedRequest` raised. */
  function RejectionMessage(r: Rejection): string {
    match r
    case UnknownConsumer => "invalid consumer key"
    case SignatureMismatch => "Signature validation failed"
  }

  /** The result of `validate_signature`: normal return or the exception it raises. */
  datatype Verdict =
    | Valid
    | BadRequest(problem: KeyProblem)
    | Unauthorized(reason: Rejection)
    | Failure  // any other exception: a missing or non-numeric port, a missing host, undecodable base64

  /** The digest expected for normalised parameters `params` signed with `secret`. */
  function ExpectedDigest(secret: string, params: Bytes, port: int, host: string, path: string, prims: Primitives): Bytes {
    prims.hmacSha1(SigningKey(secret), BaseString(params, port, host, path))
  }

  /**
   * The part of `validate_signature` after the key check: a bad port or a
   * missing host header fails; an unknown consumer key is unauthorized; the launch is valid exactly
   * when the decoded signature equals the HMAC-SHA1 of the base string
   * under the consumer's signing key, and unauthorized when it differs.
   */
  function Authenticate(post: Post, params: Bytes, port: Option<int>, host: Option<string>, path: string, consumers: seq<Consumer>, prims: Primitives): (v: Verdict)
    requires "oauth_consumer_key" in post && "oauth_signature" in post
    ensures !v.BadRequest?
    ensures v == Unauthorized(UnknownConsumer) <==>
      port.Some? && host.Some? && forall c :: c in consumers ==> c.key != post["oauth_consumer_key"]
    ensures v == Valid <==>
      port.Some? && host.Some? && GetSecret(consumers, post["oauth_consumer_key"]).Some? &&
      prims.b64decode(prims.unquote(post["oauth_signature"])) ==
        Some(ExpectedDigest(GetSecret(consumers, post["oauth_consumer_key"]).value, params, port.value, host.value, path, prims))
    ensures v == Unauthorized(SignatureMismatch) <==>
      port.Some? && host.Some? && GetSecret(consumers, post["oauth_consumer_key"]).Some? &&
      prims.b64decode(prims.unquote(post["oauth_signature"])).Some? &&
      prims.b64decode(prims.unquote(post["oauth_signature"])).value !=
        ExpectedDigest(GetSecret(consumers, post["oauth_consumer_key"]).value, params, port.value, host.value, path, prims)
  {
    match (port, host)
    case (None, _) => Failure
    case (_, None) => Failure
    case (Some(p), Some(h)) =>
      match GetSecret(consumers, post["oauth_consumer_key"])
      case None => Unauthorized(UnknownConsumer)
      case Some(secret) =>
        match prims.b64decode(prims.unquote(post["oauth_signature"]))
        case None => Failure
        case Some(signature) =>
          if signature == ExpectedDigest(secret, params, p, h, path, prims) then Valid
          else Unauthorized(SignatureMismatch)
  }

  /**
   * `validate_signature(post, meta, post_body, uri_path)`: key problems are
   * reported before anything else is looked at.
   */
  function ValidateSignature(post: Post, meta: Meta, body: Bytes, path: string, consumers: seq<Consumer>, prims: Primitives): (v: Verdict)
    ensures v.BadRequest? <==> CheckKeys(post).Some?
    ensures v.BadRequest? ==> v.problem == CheckKeys(post).value
    ensures CheckKeys(post).None? ==>
      v == Authenticate(post, NormalizeParameters(body, meta.queryString), meta.serverPort, meta.httpHost, path, consumers, prims)
  {
    match CheckKeys(post)
    case Some(p) => BadRequest(p)
    case None =>
      Authenticate(post, NormalizeParameters(body, meta.queryString), meta.serverPort, meta.httpHost, path, consumers, prims)
  }

  /**
   * The verdict does not depend on the order of the parameters in the body
   * and query string.
   */
  lemma ValidateOrderIndependent(post: Post, meta: Meta, body: Bytes, query': Bytes, body': Bytes, path: string, consumers: seq<Consumer>, prims: Primitives)
    requires multiset(Entries(body, meta.queryString)) == multiset(Entries(body', query'))
    ensures ValidateSignature(post, meta, body, path, consumers, prims) ==
      ValidateSignature(post, meta.(queryString := query'), body', path, consumers, prims)
  {
    NormalizeOrderIndependent(body, meta.queryString, body', query');
  }

  /** HMAC-SHA1 under one key does not collide (the idealisation behind signing). */
  ghost predicate CollisionFree(prims: Primitives) {
    forall k, m, m' :: prims.hmacSha1(k, m) == prims.hmacSha1(k, m') ==> m == m'
  }

  /**
   * Tampering is detected: if a launch is valid, the same signature on a
   * request whose normalised parameters differ is rejected (for a
   * collision-free HMAC).
   */
  lemma TamperedParametersRejected(post: Post, meta: Meta, body: Bytes, query': Bytes, body': Bytes, path: string, consumers: seq<Consumer>, prims: Primitives)
    requires CollisionFree(prims)
    requires ValidateSignature(post, meta, body, path, consumers, prims) == Valid
    requires NormalizeParameters(body, meta.queryString) != NormalizeParameters(body', query')
    ensures ValidateSignature(post, meta.(queryString := query'), body', path, consumers, prims) ==
      Unauthorized(SignatureMismatch)
  {
    var port, host := meta.serverPort.value, meta.httpHost.value;
    var p, p' := NormalizeParameters(body, meta.queryString), NormalizeParameters(body', query');
    BaseStringParts(p, port, host, path);
    BaseStringParts(p', port, host, path);
    assert BaseString(p, port, host, path) != BaseString(p', port, host, path);
    var secret := GetSecret(consumers, post["oauth_consumer_key"]).value;
    assert ExpectedDigest(secret, p, port, host, path, prims) != ExpectedDigest(secret, p', port, host, path, prims);
  }
}

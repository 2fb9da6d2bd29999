/** The stateless signed session: the message a session signature covers,
    the `user:expiry:signature` cookie value and the gate that decides, from
    the cookie alone, whether a dashboard request may go through. */
module Session {
  import opened Wrappers
  import opened Fields
  import opened Decimal

  const SessionCookieName: string := "dkron_ui_session"

  const NanosPerSecond: int := 1_000_000_000

  /** Go's `Time.Unix` of an instant given in nanoseconds since the epoch:
      whole seconds, rounded toward the past (Dafny's `/` floors for a
      positive divisor). */
  function UnixSeconds(nanos: int): int {
    nanos / NanosPerSecond
  }

  /** The keyed MAC followed by its base64 text, as one function of
      `(secret, message)`. It is a parameter: nothing about it is known
      beyond what the predicates below assume where they are required. */
  type Signer = (string, string) -> string

  /** Base64 text never holds a colon: the standard alphabet is letters,
      digits, `+`, `/` and `=`. */
  ghost predicate ColonFree(sign: Signer) {
    forall secret, msg :: ':' !in sign(secret, msg)
  }

  /** The idealised MAC: under one secret, distinct messages get distinct signatures. */
  ghost predicate Injective(sign: Signer) {
    forall secret, m1, m2 :: sign(secret, m1) == sign(secret, m2) ==> m1 == m2
  }

  /** Two characters per message character, never a colon: `a` then the
      character itself, or `bb` for a colon. */
  function Escape(msg: string): (e: string)
    ensures |e| == 2 * |msg|
    ensures ':' !in e
  {
    if |msg| == 0 then ""
    else (if msg[0] == ':' then "bb" else ['a', msg[0]]) + Escape(msg[1..])
  }

  lemma {:induction false} EscapeInjective(m1: string, m2: string)
    requires Escape(m1) == Escape(m2)
    ensures m1 == m2
    decreases |m1|
  {
    if |m1| > 0 {
      var e := Escape(m1);
      assert e[2..] == Escape(m1[1..]) && e[2..] == Escape(m2[1..]);
      EscapeInjective(m1[1..], m2[1..]);
      assert m1[0] == m2[0] by {
        assert e[0] == (if m1[0] == ':' then 'b' else 'a');
        assert e[0] == (if m2[0] == ':' then 'b' else 'a');
      }
      assert m1 == [m1[0]] + m1[1..] && m2 == [m2[0]] + m2[1..];
    }
  }

  /** Both assumptions about the signer can hold together, so results that
      require them are not vacuous. */
  lemma SignerAssumptionsSatisfiable()
    ensures exists sign: Signer :: ColonFree(sign) && Injective(sign)
  {
    var sign: Signer := (secret, msg) => Escape(msg);
    forall secret, m1, m2 | sign(secret, m1) == sign(secret, m2)
      ensures m1 == m2
    {
      EscapeInjective(m1, m2);
    }
    assert ColonFree(sign) && Injective(sign);
  }

  /** The signed message: the user, a colon and the expiry in `%d` form. */
  function SessionMessage(user: string, expiry: int): (m: string)
    ensures Split(m, ':') == Split(user, ':') + [FormatInt(expiry)]
  {
    SplitAround(user, FormatInt(expiry), ':');
    SplitSingle(FormatInt(expiry), ':');
    user + ":" + FormatInt(expiry)
  }

  /** The signature of a session, as login writes it and the gate recomputes it. */
  function SignSession(sign: Signer, secret: string, user: string, expiry: int): (g: string)
    ensures ColonFree(sign) ==> ':' !in g
    ensures Injective(sign) ==> forall u, e ::
      sign(secret, SessionMessage(u, e)) == g ==> u == user && e == expiry
  {
    var g := sign(secret, SessionMessage(user, expiry));
    assert Injective(sign) ==> forall u, e ::
      sign(secret, SessionMessage(u, e)) == g ==> u == user && e == expiry by {
      forall u, e | Injective(sign) && sign(secret, SessionMessage(u, e)) == g
        ensures u == user && e == expiry
      {
        SessionMessageInjective(u, e, user, expiry);
      }
    }
    g
  }

  lemma SeparatorFreeTail(a: string, b: string, sep: char)
    requires sep !in b
    ensures forall k :: |a| < k < |a + [sep] + b| ==> (a + [sep] + b)[k] != sep
  {
    forall k | |a| < k < |a + [sep] + b|
      ensures (a + [sep] + b)[k] != sep
    {
      assert (a + [sep] + b)[k] == b[k - |a| - 1];
    }
  }

  /** Where the separator is the last one in both spellings, the parts agree. */
  lemma LastSeparator(a: string, b: string, a': string, b': string, sep: char)
    requires a + [sep] + b == a' + [sep] + b'
    requires sep !in b && sep !in b'
    ensures a == a' && b == b'
  {
    var s := a + [sep] + b;
    SeparatorFreeTail(a, b, sep);
    SeparatorFreeTail(a', b', sep);
    assert s[|a|] == sep && s[|a'|] == sep;
    assert |a| == |a'|;
    assert a == s[..|a|] && a' == s[..|a'|];
    assert b == s[|a| + 1..] && b' == s[|a'| + 1..];
  }

  /** The message determines the user and the expiry, whatever the user holds. */
  lemma SessionMessageInjective(u1: string, e1: int, u2: string, e2: int)
    requires SessionMessage(u1, e1) == SessionMessage(u2, e2)
    ensures u1 == u2 && e1 == e2
  {
    LastSeparator(u1, FormatInt(e1), u2, FormatInt(e2), ':');
    FormatIntInjective(e1, e2);
  }

  /** The session as the cookie carries it. */
  datatype SessionToken = SessionToken(user: string, expiry: int, signature: string)

  /** The cookie value written at login: `user:expiry:signature`. */
  function Serialize(t: SessionToken): (v: string)
    ensures Occurrences(v, ':') == Occurrences(t.user, ':') + 2 + Occurrences(t.signature, ':')
  {
    var f := FormatInt(t.expiry);
    assert multiset(f)[':'] == 0;
    var v := t.user + ":" + f + ":" + t.signature;
    assert multiset(v) == multiset(t.user) + multiset{':'} + multiset(f) + multiset{':'} + multiset(t.signature);
    v
  }

  /** The gate's reading of a cookie value: exactly three colon-separated
      fields, the middle one a base-10 int64. */
  function ParseCookie(v: string): (r: Option<SessionToken>)
    ensures r.Some? ==> Occurrences(v, ':') == 2
    ensures r.Some? ==> ':' !in r.value.user && ':' !in r.value.signature && IsInt64(r.value.expiry)
  {
    var parts := Split(v, ':');
    if |parts| != 3 then None
    else
      match ParseInt(parts[1])
      case None => None
      case Some(expiry) => Some(SessionToken(parts[0], expiry, parts[2]))
  }

  /** Three colon-free fields joined by colons. */
  function Fields3(u: string, text: string, g: string): string {
    u + ":" + text + ":" + g
  }

  lemma SplitFields3(u: string, text: string, g: string)
    requires ':' !in u && ':' !in text && ':' !in g
    ensures Split(Fields3(u, text, g), ':') == [u, text, g]
  {
    assert Fields3(u, text, g) == u + [':'] + (text + [':'] + g);
    SplitConcat(u, text + [':'] + g, ':');
    SplitConcat(text, g, ':');
    SplitSingle(g, ':');
  }

  /** Every accepted value is three colon-free fields whose middle one parses to the expiry. */
  lemma ParseCookieShape(v: string)
    requires ParseCookie(v).Some?
    ensures var t := ParseCookie(v).value;
      exists text :: ':' !in text && ParseInt(text) == Some(t.expiry) && v == Fields3(t.user, text, t.signature)
  {
    var parts := Split(v, ':');
    JoinSplit(v, ':');
    var tail := parts[1..];
    assert Join(tail[1..], ':') == parts[2] by {
      assert tail[1..] == [parts[2]];
    }
    assert Join(tail, ':') == parts[1] + [':'] + parts[2];
    assert v == parts[0] + [':'] + Join(tail, ':');
    assert v == Fields3(parts[0], parts[1], parts[2]);
  }

  /** Conversely, three colon-free fields are read as such, and the value is
      refused exactly when the middle field does not parse. */
  lemma ParseCookieFields(u: string, text: string, g: string)
    requires ':' !in u && ':' !in text && ':' !in g
    ensures ParseCookie(Fields3(u, text, g)) ==
      (match ParseInt(text)
       case None => None
       case Some(e) => Some(SessionToken(u, e, g)))
  {
    SplitFields3(u, text, g);
  }

  /** The written cookie reads back as the same session exactly when neither
      the user nor the signature holds a colon and the expiry fits an int64. */
  lemma SerializeRoundTrip(t: SessionToken)
    ensures ParseCookie(Serialize(t)) == Some(t) <==>
      ':' !in t.user && ':' !in t.signature && IsInt64(t.expiry)
  {
    if ':' !in t.user && ':' !in t.signature {
      ParseCookieFields(t.user, FormatInt(t.expiry), t.signature);
      ParseFormat(t.expiry);
    }
  }

  /** A user or a signature holding a colon gives a value with more than
      three fields, which is never read. */
  lemma ColonInFieldUnreadable(t: SessionToken)
    requires ':' in t.user || ':' in t.signature
    ensures |Split(Serialize(t), ':')| > 3
    ensures ParseCookie(Serialize(t)).None?
  {
    assert Occurrences(t.user, ':') + Occurrences(t.signature, ':') >= 1;
  }

  datatype GateDecision = Forward | Challenge401

  /** A session is valid iff its signature is the one recomputed for its user
      and expiry and the clock has not passed the expiry. */
  predicate TokenValid(sign: Signer, secret: string, now: int, t: SessionToken): (valid: bool)
    ensures valid ==> forall earlier :: earlier <= now ==> UnixSeconds(earlier) <= t.expiry
    ensures !valid && t.signature == SignSession(sign, secret, t.user, t.expiry) ==>
      forall later :: later >= now ==> UnixSeconds(later) > t.expiry
  {
    UnixSeconds(now) <= t.expiry && t.signature == SignSession(sign, secret, t.user, t.expiry)
  }

  /** The session middleware, given the secret, the clock (nanoseconds) and
      the session cookie if the request carries one. */
  function Gate(sign: Signer, secret: string, now: int, cookie: Option<string>): (d: GateDecision)
    ensures cookie.None? ==> d == Challenge401
    ensures d == Forward ==> Occurrences(cookie.value, ':') == 2
  {
    match cookie
    case None => Challenge401
    case Some(v) =>
      match ParseCookie(v)
      case None => Challenge401
      case Some(t) => if TokenValid(sign, secret, now, t) then Forward else Challenge401
  }

  /** The four conditions of the gate, on one spelling of the cookie value. */
  ghost predicate PassesChecks(sign: Signer, secret: string, now: int, v: string, u: string, text: string, g: string) {
    && v == Fields3(u, text, g) && ':' !in u && ':' !in text && ':' !in g
    && ParseInt(text).Some?
    && UnixSeconds(now) <= ParseInt(text).value
    && g == SignSession(sign, secret, u, ParseInt(text).value)
  }

  /** The gate forwards exactly when the cookie is present, splits into three
      fields, its middle field parses, the clock has not passed that expiry
      and the third field is the signature recomputed from the parsed value. */
  lemma GateForwardsIff(sign: Signer, secret: string, now: int, cookie: Option<string>)
    ensures Gate(sign, secret, now, cookie) == Forward <==>
      cookie.Some? && exists u, text, g :: PassesChecks(sign, secret, now, cookie.value, u, text, g)
  {
    if Gate(sign, secret, now, cookie) == Forward {
      var v := cookie.value;
      var t := ParseCookie(v).value;
      ParseCookieShape(v);
      var text :| ':' !in text && ParseInt(text) == Some(t.expiry) && v == Fields3(t.user, text, t.signature);
      assert PassesChecks(sign, secret, now, v, t.user, text, t.signature);
    }
    if cookie.Some? && exists u, text, g :: PassesChecks(sign, secret, now, cookie.value, u, text, g) {
      var u, text, g :| PassesChecks(sign, secret, now, cookie.value, u, text, g);
      ParseCookieFields(u, text, g);
    }
  }

  /** A correctly signed session past its expiry is refused. */
  lemma ExpiredSessionRejected(sign: Signer, secret: string, now: int, user: string, expiry: int)
    requires UnixSeconds(now) > expiry
    ensures Gate(sign, secret, now, Some(Serialize(SessionToken(user, expiry, SignSession(sign, secret, user, expiry))))) == Challenge401
  {
    var g := SignSession(sign, secret, user, expiry);
    var t := SessionToken(user, expiry, g);
    if ':' in user || ':' in g {
      ColonInFieldUnreadable(t);
    } else {
      ParseFormat(expiry);
      ParseCookieFields(user, FormatInt(expiry), g);
    }
  }

  /** Well-formed fields with any signature but the recomputed one are refused. */
  lemma WrongSignatureRejected(sign: Signer, secret: string, now: int, u: string, text: string, g: string)
    requires ':' !in u && ':' !in text && ':' !in g
    requires ParseInt(text).Some? && g != SignSession(sign, secret, u, ParseInt(text).value)
    ensures Gate(sign, secret, now, Some(Fields3(u, text, g))) == Challenge401
  {
    ParseCookieFields(u, text, g);
  }

  /** Keeping the signature of one session while changing its user or its
      expiry gets the request refused, for an injective signer. */
  lemma ForgedFieldsRejected(sign: Signer, secret: string, now: int, user: string, expiry: int, v: string)
    requires Injective(sign)
    requires ParseCookie(v).Some?
    requires ParseCookie(v).value.signature == SignSession(sign, secret, user, expiry)
    requires ParseCookie(v).value.user != user || ParseCookie(v).value.expiry != expiry
    ensures Gate(sign, secret, now, Some(v)) == Challenge401
  {
    var t := ParseCookie(v).value;
    if TokenValid(sign, secret, now, t) {
      SessionMessageInjective(t.user, t.expiry, user, expiry);
    }
  }

  /** The expiry text is not compared with the canonical one: a value whose
      middle field spells the signed expiry with a plus sign, which login
      never writes, is still forwarded. */
  lemma NonCanonicalExpiryAccepted(sign: Signer, secret: string, now: int, user: string, expiry: int)
    requires ColonFree(sign)
    requires ':' !in user
    requires UnixSeconds(now) <= expiry <= MaxInt64 && 0 <= expiry
    ensures var g := SignSession(sign, secret, user, expiry);
      && Fields3(user, "+" + FormatInt(expiry), g) != Serialize(SessionToken(user, expiry, g))
      && Gate(sign, secret, now, Some(Fields3(user, "+" + FormatInt(expiry), g))) == Forward
  {
    var g := SignSession(sign, secret, user, expiry);
    var text := "+" + FormatInt(expiry);
    PlusSignAccepted(expiry);
    assert ':' !in text;
    var t := SessionToken(user, expiry, g);
    ParseCookieFields(user, text, g);
    assert ParseCookie(Fields3(user, text, g)) == Some(t);
    assert TokenValid(sign, secret, now, t);
    var canonical := Fields3(user, FormatInt(expiry), g);
    assert Serialize(t) == canonical;
    assert |Fields3(user, text, g)| == |canonical| + 1;
  }
}

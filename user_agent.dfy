/** The browser's side of the session cookie, as section 5 of RFC 6265 defines it: how the
    `Max-Age` attribute sets an expiry time (section 5.2.2), how a received cookie replaces or
    evicts the stored one (section 5.3) and which cookies go out with a request (section 5.4).
    Domain and path matching are not modelled: every cookie here has path "/" and one host. */
module UserAgent {
  import opened Http

  /** The expiry time of a stored cookie; `Earliest` is "the earliest representable date". */
  datatype Expiry = Earliest | At(time: int)

  /** Section 5.2.2 of RFC 6265: a `Max-Age` of zero or less means the earliest representable
      time, otherwise the current time plus that many seconds. */
  function MaxAgeExpiry(deltaSeconds: int, now: int): (e: Expiry)
    ensures e.Earliest? <==> deltaSeconds <= 0
    ensures e.At? ==> e.time == now + deltaSeconds && e.time > now
  {
    if deltaSeconds <= 0 then Earliest else At(now + deltaSeconds)
  }

  /** A cookie whose expiry time lies in the past at time `t`. */
  predicate Expired(e: Expiry, t: int) {
    e.Earliest? || e.time < t
  }

  /** A cookie in the browser's store; `secureOnly` is the `Secure` attribute it came with. */
  datatype StoredCookie = StoredCookie(value: string, expiry: Expiry, secureOnly: bool)

  type CookieStore = map<string, StoredCookie>

  /** Section 5.3 of RFC 6265: a received cookie replaces the stored cookie of the same name;
      one that is already expired is evicted at once, so the name ends up absent. */
  function Receive(jar: CookieStore, name: string, c: Cookie, now: int): (r: CookieStore)
    ensures forall n :: n in jar && n != name ==> n in r && r[n] == jar[n]
    ensures forall n :: n in r ==> n in jar || n == name
    ensures c.options.maxAge <= 0 ==> name !in r
    ensures c.options.maxAge > 0 ==>
      name in r && r[name] == StoredCookie(c.value, At(now + c.options.maxAge), c.options.secure)
  {
    var e := MaxAgeExpiry(c.options.maxAge, now);
    if Expired(e, now) then jar - {name} else jar[name := StoredCookie(c.value, e, c.options.secure)]
  }

  /** The stored cookie goes out with a request at time `t`: it has not expired, and a
      secure-only cookie goes out only over a secure channel. */
  predicate Sendable(c: StoredCookie, t: int, secureChannel: bool) {
    !Expired(c.expiry, t) && (secureChannel || !c.secureOnly)
  }

  /** Section 5.4 of RFC 6265: the cookies a request sent at time `t` carries, which the
      server reads as `req.cookies`; `secureChannel` says whether the request goes over
      HTTPS. Expired cookies are never sent, secure-only ones never over plain HTTP. */
  function Send(jar: CookieStore, t: int, secureChannel: bool): (r: RequestCookies)
    ensures forall n :: n in r <==> n in jar && !Expired(jar[n].expiry, t) && (secureChannel || !jar[n].secureOnly)
    ensures forall n :: n in r ==> r[n] == jar[n].value
  {
    map n | n in jar && Sendable(jar[n], t, secureChannel) :: jar[n].value
  }
}

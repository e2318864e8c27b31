/**
 Passing a validated identity to a namespace gateway in request headers.  Header names are
 taken in canonical form; the encoding of custom claims is a parameter.
 */
module IdentityHop {
  import opened Wrappers

  datatype Name = Validated | AuthNamespace | JwtSub | JwtCustom | AuthScopes | Other(name: string)

  type Headers = map<Name, seq<string>>

  datatype Claims = Claims(sub: string, namespace: string, custom: map<string, string>)

  datatype Identity = Identity(namespace: string, claims: Option<Claims>, scopes: Option<string>)

  datatype Codec = Codec(encode: map<string, string> -> string, decode: string -> Option<map<string, string>>)

  /** Decoding gives back what was encoded, and encoded text has no surrounding space. */
  ghost predicate Lossless(codec: Codec) {
    forall m: map<string, string> :: m != map[] ==>
      codec.decode(codec.encode(m)) == Some(m) && codec.encode(m) != "" && Trim(codec.encode(m)) == codec.encode(m)
  }

  // ----- Trimming -----

  predicate IsSpace(c: char) {
    || c in {'\t', '\n', '\U{0B}', '\U{0C}', '\r', ' ', '\U{85}', '\U{A0}', '\U{1680}'}
    || c in {'\U{2028}', '\U{2029}', '\U{202F}', '\U{205F}', '\U{3000}'}
    || '\U{2000}' <= c <= '\U{200A}'
  }

  /** Among the ASCII characters: the blank and the five from tab to carriage return. */
  lemma AsciiSpaces(c: char)
    requires c < '\U{80}'
    ensures IsSpace(c) <==> c == ' ' || '\t' <= c <= '\r'
  {
  }

  function TrimLeft(s: string): string {
    if s != "" && IsSpace(s[0]) then TrimLeft(s[1..]) else s
  }

  function TrimRight(s: string): string {
    if s != "" && IsSpace(s[|s| - 1]) then TrimRight(s[..|s| - 1]) else s
  }

  function Trim(s: string): string {
    TrimRight(TrimLeft(s))
  }

  lemma {:induction false} TrimRightKeepsHead(s: string)
    ensures TrimRight(s) != "" ==> s != "" && TrimRight(s)[0] == s[0] && !IsSpace(TrimRight(s)[|TrimRight(s)| - 1])
  {
    if s != "" && IsSpace(s[|s| - 1]) {
      TrimRightKeepsHead(s[..|s| - 1]);
    }
  }

  lemma {:induction false} TrimLeftHead(s: string)
    ensures TrimLeft(s) != "" ==> !IsSpace(TrimLeft(s)[0])
  {
    if s != "" && IsSpace(s[0]) {
      TrimLeftHead(s[1..]);
    }
  }

  lemma {:induction false} TrimLeftDrops(s: string) returns (i: nat)
    ensures i <= |s| && TrimLeft(s) == s[i..] && forall k :: 0 <= k < i ==> IsSpace(s[k])
  {
    i := 0;
    if s != "" && IsSpace(s[0]) {
      i := TrimLeftDrops(s[1..]);
      assert forall k :: 0 < k <= i ==> s[k] == s[1..][k - 1];
      i := i + 1;
    }
  }

  lemma {:induction false} TrimRightDrops(s: string) returns (j: nat)
    ensures j <= |s| && TrimRight(s) == s[..j] && forall k :: j <= k < |s| ==> IsSpace(s[k])
  {
    j := |s|;
    if s != "" && IsSpace(s[|s| - 1]) {
      j := TrimRightDrops(s[..|s| - 1]);
      assert forall k :: j <= k < |s| - 1 ==> s[k] == s[..|s| - 1][k];
      assert s[..|s| - 1][..j] == s[..j];
    }
  }

  /** What is left is a stretch of the text with nothing but space around it, that neither begins
      nor ends with space. */
  lemma TrimKeepsMiddle(s: string) returns (i: nat, j: nat)
    ensures i <= j <= |s| && Trim(s) == s[i..j]
    ensures forall k :: 0 <= k < |s| && (k < i || k >= j) ==> IsSpace(s[k])
    ensures i < j ==> !IsSpace(s[i]) && !IsSpace(s[j - 1])
  {
    i := TrimLeftDrops(s);
    var left := TrimLeft(s);
    j := TrimRightDrops(left);
    TrimLeftHead(s);
    TrimRightKeepsHead(left);
    assert left[..j] == s[i..i + j];
    assert forall k :: i + j <= k < |s| ==> s[k] == left[k - i];
    j := i + j;
  }

  lemma TrimTwice(s: string)
    ensures Trim(Trim(s)) == Trim(s)
  {
    TrimLeftHead(s);
    TrimRightKeepsHead(TrimLeft(s));
  }

  // ----- Header access -----

  function Get(h: Headers, n: Name): string {
    if n in h && h[n] != [] then h[n][0] else ""
  }

  function Set(h: Headers, n: Name, v: string): Headers {
    h[n := [v]]
  }

  function Strip(h: Headers): Headers {
    h - {Validated, AuthNamespace, JwtSub, JwtCustom, AuthScopes}
  }

  // ----- Sending -----

  function WithClaims(codec: Codec, h: Headers, claims: Option<Claims>): Headers {
    if claims.None? then h else
    var sub := Trim(claims.value.sub);
    var h := if sub != "" then Set(h, JwtSub, sub) else h;
    if claims.value.custom != map[] then Set(h, JwtCustom, codec.encode(claims.value.custom)) else h
  }

  /** Inbound identity headers go first; validated ones are then written, if there are any. */
  function Stamped(codec: Codec, h: Headers, namespace: string, claims: Option<Claims>, scopes: string): Headers {
    if namespace == "" then Strip(h) else
    var h := Set(Set(Strip(h), Validated, "true"), AuthNamespace, namespace);
    var h := WithClaims(codec, h, claims);
    if scopes != "" then Set(h, AuthScopes, scopes) else h
  }

  /** The headers as the copy loop reproduces them: names without values disappear. */
  function Copied(h: Headers): Headers {
    map n | n in h && h[n] != [] :: h[n]
  }

  method CopyHeaders(inbound: Headers) returns (h: Headers)
    ensures h == Copied(inbound)
  {
    h := map[];
    var rest := inbound.Keys;
    while rest != {}
      invariant rest <= inbound.Keys
      invariant h == map n | n in inbound && n !in rest && inbound[n] != [] :: inbound[n]
      decreases rest
    {
      var n :| n in rest;
      ghost var before := h;
      for i := 0 to |inbound[n]|
        invariant h == if i == 0 then before else before[n := inbound[n][..i]]
      {
        h := h[n := (if n in h then h[n] else []) + [inbound[n][i]]];
        assert inbound[n][..i + 1] == inbound[n][..i] + [inbound[n][i]];
      }
      assert inbound[n][..|inbound[n]|] == inbound[n];
      rest := rest - {n};
    }
  }

  method StampHeaders(codec: Codec, inbound: Headers, namespace: string, claims: Option<Claims>, scopes: string)
    returns (h: Headers)
    ensures h == Stamped(codec, inbound, namespace, claims, scopes)
  {
    h := inbound;
    h := h - {Validated};
    h := h - {AuthNamespace};
    h := h - {JwtSub};
    h := h - {JwtCustom};
    h := h - {AuthScopes};
    assert h == Strip(inbound);
    if namespace != "" {
      h := h[Validated := ["true"]];
      h := h[AuthNamespace := [namespace]];
      if claims.Some? {
        var sub := Trim(claims.value.sub);
        if sub != "" {
          h := h[JwtSub := [sub]];
        }
        if claims.value.custom != map[] {
          h := h[JwtCustom := [codec.encode(claims.value.custom)]];
        }
      }
      if scopes != "" {
        h := h[AuthScopes := [scopes]];
      }
    }
  }

  function Forwarding(h: Headers, clientIp: string, host: string): Headers {
    h[Other("X-Forwarded-For") := [clientIp]][Other("X-Forwarded-Proto") := ["https"]]
     [Other("X-Forwarded-Host") := [host]][Other("X-Original-Host") := [host]]
  }

  /** The proxied request's headers: a copy of the inbound ones, forwarding headers, then the
      identity.  A receiver inside the mesh reads from them exactly what was validated. */
  method Outbound(codec: Codec, inbound: Headers, clientIp: string, host: string,
                  namespace: string, claims: Option<Claims>, scopes: string) returns (h: Headers)
    requires Lossless(codec)
    ensures h == Stamped(codec, Forwarding(Copied(inbound), clientIp, host), namespace, claims, scopes)
    ensures Accepted(codec, h, true) == if Trim(namespace) == "" then None else Some(Sent(namespace, claims, scopes))
    ensures forall n: Name :: !n.Other? ==> Values(h, n) == IdentityValues(codec, namespace, claims, scopes, n)
    ensures forall name :: Values(h, Other(name)) == PlainValues(inbound, clientIp, host, name)
  {
    h := CopyHeaders(inbound);
    h := Forwarding(h, clientIp, host);
    IdentityRoundTrip(codec, h, namespace, claims, scopes);
    ghost var copied := h;
    h := StampHeaders(codec, h, namespace, claims, scopes);
    forall n: Name | !n.Other? ensures Values(h, n) == IdentityValues(codec, namespace, claims, scopes, n) {
      StampedIdentity(codec, copied, namespace, claims, scopes, n);
    }
    forall name ensures Values(h, Other(name)) == PlainValues(inbound, clientIp, host, name) {
      ForwardedValues(inbound, clientIp, host, name);
      OtherHeadersSurvive(codec, copied, namespace, claims, scopes, Other(name));
    }
  }

  /** All values of a header; none if it is missing. */
  function Values(h: Headers, n: Name): seq<string> {
    if n in h then h[n] else []
  }

  /** What goes out under one of the five identity names: validated values or nothing. */
  function IdentityValues(codec: Codec, namespace: string, claims: Option<Claims>, scopes: string, n: Name): seq<string>
    requires !n.Other?
  {
    if namespace == "" then [] else
    match n
    case Validated => ["true"]
    case AuthNamespace => [namespace]
    case JwtSub => if claims.Some? && Trim(claims.value.sub) != "" then [Trim(claims.value.sub)] else []
    case JwtCustom => if claims.Some? && claims.value.custom != map[] then [codec.encode(claims.value.custom)] else []
    case AuthScopes => if scopes != "" then [scopes] else []
  }

  /** What goes out under any other name: one value for each of the four forwarding headers,
      and what came in otherwise. */
  function PlainValues(inbound: Headers, clientIp: string, host: string, name: string): seq<string> {
    if name == "X-Forwarded-For" then [clientIp]
    else if name == "X-Forwarded-Proto" then ["https"]
    else if name == "X-Forwarded-Host" || name == "X-Original-Host" then [host]
    else Values(inbound, Other(name))
  }

  lemma ForwardedValues(inbound: Headers, clientIp: string, host: string, name: string)
    ensures Values(Forwarding(Copied(inbound), clientIp, host), Other(name))
         == PlainValues(inbound, clientIp, host, name)
  {
  }

  lemma StampedIdentity(codec: Codec, h: Headers, namespace: string, claims: Option<Claims>, scopes: string, n: Name)
    requires !n.Other?
    ensures Values(Stamped(codec, h, namespace, claims, scopes), n)
         == IdentityValues(codec, namespace, claims, scopes, n)
  {
  }

  // ----- Receiving -----

  function CustomOf(codec: Codec, h: Headers): map<string, string> {
    var raw := Trim(Get(h, JwtCustom));
    if raw == "" then map[] else
    match codec.decode(raw)
    case Some(custom) => custom
    case None => map[]
  }

  function ClaimsFrom(codec: Codec, h: Headers, namespace: string): Option<Claims> {
    var sub := Trim(Get(h, JwtSub));
    if sub == "" then None else Some(Claims(sub, namespace, CustomOf(codec, h)))
  }

  /** The identity a gateway takes from the headers; only peers inside the mesh are trusted. */
  function Accepted(codec: Codec, h: Headers, internal: bool): Option<Identity> {
    var namespace := Trim(Get(h, AuthNamespace));
    if Get(h, Validated) != "true" || !internal || namespace == "" then None else
    var scopes := Trim(Get(h, AuthScopes));
    Some(Identity(namespace, ClaimsFrom(codec, h, namespace), if scopes == "" then None else Some(scopes)))
  }

  /** What the sender validated: no claims without a subject. */
  function Sent(namespace: string, claims: Option<Claims>, scopes: string): Identity {
    var kept := if claims.Some? && Trim(claims.value.sub) != "" then
                  Some(Claims(Trim(claims.value.sub), Trim(namespace), claims.value.custom))
                else None;
    Identity(Trim(namespace), kept, if Trim(scopes) == "" then None else Some(Trim(scopes)))
  }

  lemma StampedHeaders(codec: Codec, h: Headers, namespace: string, claims: Option<Claims>, scopes: string)
    requires namespace != ""
    ensures var out := Stamped(codec, h, namespace, claims, scopes);
            && Get(out, Validated) == "true" && Get(out, AuthNamespace) == namespace && Get(out, AuthScopes) == scopes
            && Get(out, JwtSub) == (if claims.Some? then Trim(claims.value.sub) else "")
            && Get(out, JwtCustom)
               == (if claims.Some? && claims.value.custom != map[] then codec.encode(claims.value.custom) else "")
  {
  }

  /** Whatever identity headers came in, the receiver sees exactly the validated identity:
      namespace, subject, custom claims and scopes, or nothing when the namespace is blank.
      A peer outside the mesh is believed nothing. */
  lemma IdentityRoundTrip(codec: Codec, h: Headers, namespace: string, claims: Option<Claims>, scopes: string)
    requires Lossless(codec)
    ensures Accepted(codec, Stamped(codec, h, namespace, claims, scopes), true)
         == if Trim(namespace) == "" then None else Some(Sent(namespace, claims, scopes))
    ensures Accepted(codec, h, false) == None
  {
    if namespace != "" {
      StampedHeaders(codec, h, namespace, claims, scopes);
      if claims.Some? {
        TrimTwice(claims.value.sub);
      }
    }
  }

  /** A gateway takes an identity from the headers if and only if the request comes from inside
      the mesh, is marked as validated and names a namespace. */
  lemma AcceptedIff(codec: Codec, h: Headers, internal: bool)
    ensures Accepted(codec, h, internal).Some? <==>
              && internal && Validated in h && h[Validated] != [] && h[Validated][0] == "true"
              && AuthNamespace in h && h[AuthNamespace] != [] && Trim(h[AuthNamespace][0]) != ""
  {
    assert Trim("") == "";
  }

  /** Custom claims that cannot be decoded are dropped; the rest is accepted all the same. */
  lemma UndecodableClaimsAreDropped(codec: Codec, h: Headers)
    requires Accepted(codec, h, true).Some? && codec.decode(Trim(Get(h, JwtCustom))) == None
    ensures var id := Accepted(codec, h, true).value;
            && id.namespace == Trim(Get(h, AuthNamespace))
            && (id.claims.Some? <==> Trim(Get(h, JwtSub)) != "")
            && (id.claims.Some? ==> id.claims.value == Claims(Trim(Get(h, JwtSub)), id.namespace, map[]))
  {
  }

  /** Everything else passes through untouched. */
  lemma OtherHeadersSurvive(codec: Codec, h: Headers, namespace: string, claims: Option<Claims>, scopes: string,
                            n: Name)
    requires n.Other?
    ensures Values(Stamped(codec, h, namespace, claims, scopes), n) == Values(h, n)
  {
  }
}

/** The CRM sign-in state on the device: the student's JWT comes from the CRM's cookie or
    from the link stored at login, and its payload segment is decoded without checking the
    signature. Base64 and JSON decoding are a function parameter `decode` (None where `atob`
    or `JSON.parse` throws); the clock is the parameter `now`, in milliseconds. */
module CrmAuth {
  import opened Wrappers
  import Strings

  /** The claims the app reads; JSON's absent field and `null` are both `None`. `exp` is
      the expiry in seconds. */
  datatype Payload = Payload(phone: Option<string>, studentId: Option<string>, exp: Option<int>)

  /** The link written at login. */
  datatype CrmLink = CrmLink(token: string, crmUrl: string, studentName: string, phone: string,
                             studentId: string, linkedAt: string)

  /** The stored link slot: nothing (or an empty string), text that does not parse as a
      link, or a link. */
  datatype Slot = Empty | Unparsable | Stored(link: CrmLink)

  /** JavaScript truthiness of an optional string: present and not empty. */
  predicate Truthy(o: Option<string>) {
    o.Some? && o.value != ""
  }

  /** base64url to base64: `-` becomes `+` and `_` becomes `/`. */
  function Normalised(s: string): (r: string)
    ensures |r| == |s|
    ensures '-' !in r && '_' !in r
    ensures forall i :: 0 <= i < |s| && s[i] != '-' && s[i] != '_' ==> r[i] == s[i]
    ensures forall i :: 0 <= i < |s| ==> (s[i] == '-' ==> r[i] == '+') && (s[i] == '_' ==> r[i] == '/')
  {
    if s == [] then []
    else [if s[0] == '-' then '+' else if s[0] == '_' then '/' else s[0]] + Normalised(s[1..])
  }

  /** A segment already in base64 is left alone, so normalising twice is normalising once. */
  lemma NormalisedIdempotent(s: string)
    ensures Normalised(Normalised(s)) == Normalised(s)
  {
    StandardUnchanged(Normalised(s));
  }

  lemma {:induction false} StandardUnchanged(s: string)
    requires '-' !in s && '_' !in s
    ensures Normalised(s) == s
  {
    if s != [] {
      StandardUnchanged(s[1..]);
    }
  }

  /** `"=".repeat(n)`. */
  function Equals(n: nat): (r: string)
    ensures |r| == n && forall i :: 0 <= i < n ==> r[i] == '='
  {
    if n == 0 then [] else Equals(n - 1) + ['=']
  }

  /** The segment padded with `(4 - len % 4) % 4` equal signs: the fewest that make its
      length a multiple of four. */
  function Padded(s: string): (r: string)
    ensures |r| % 4 == 0 && |s| <= |r| < |s| + 4
    ensures r[..|s|] == s && forall i :: |s| <= i < |r| ==> r[i] == '='
    ensures forall n :: |s| <= n < |r| ==> n % 4 != 0
  {
    s + Equals((4 - |s| % 4) % 4)
  }

  /** A padded segment needs no more padding. */
  lemma PaddedIdempotent(s: string)
    ensures Padded(Padded(s)) == Padded(s)
  {}

  /** A payload with an `exp` other than 0 (0 is falsy) that lies before `now` has expired. */
  predicate Expired(p: Payload, now: int) {
    p.exp.Some? && p.exp.value != 0 && p.exp.value * 1000 < now
  }

  /** The text that reaches `atob`: the token's second dot-separated piece, normalised and
      padded. */
  function PayloadSegment(token: string): (seg: Option<string>)
    ensures seg.None? <==> '.' !in token
  {
    var parts := Strings.Split(token, '.');
    assert |parts| < 2 <==> '.' !in token;
    if |parts| < 2 then None else Some(Padded(Normalised(parts[1])))
  }

  /** decodeJwtPayload: None for a token with no dot, a segment that does not decode, or an
      expired payload; otherwise the decoded payload. */
  function DecodeJwtPayload(token: string, now: int, decode: string -> Option<Payload>): (r: Option<Payload>)
    ensures '.' !in token ==> r.None?
    ensures r.Some? <==> PayloadSegment(token).Some? && decode(PayloadSegment(token).value).Some?
                         && !Expired(decode(PayloadSegment(token).value).value, now)
    ensures r.Some? ==> r == decode(PayloadSegment(token).value)
  {
    match PayloadSegment(token)
    case None => None
    case Some(seg) =>
      match decode(seg)
      case None => None
      case Some(p) => if Expired(p, now) then None else Some(p)
  }

  /** In a token `header.payload.signature` only the payload piece is decoded; the header
      and signature play no part. */
  lemma DecodesPayloadPiece(header: string, payload: string, signature: string)
    requires '.' !in header && '.' !in payload && '.' !in signature
    ensures PayloadSegment(header + ['.'] + payload + ['.'] + signature) == Some(Padded(Normalised(payload)))
  {
    var token := header + ['.'] + payload + ['.'] + signature;
    ThreePieces(header, payload, signature);
    assert Strings.Split(token, '.')[1] == payload;
  }

  lemma ThreePieces(header: string, payload: string, signature: string)
    requires '.' !in header && '.' !in payload && '.' !in signature
    ensures Strings.Split(header + ['.'] + payload + ['.'] + signature, '.') == [header, payload, signature]
  {
    var parts := [header, payload, signature];
    assert parts[1..] == [payload, signature];
    assert [payload, signature][1..] == [signature];
    assert Strings.Join([payload, signature], '.') == payload + ['.'] + signature;
    assert Strings.Join(parts, '.') == header + ['.'] + payload + ['.'] + signature;
    Strings.SplitJoin(parts, '.');
  }

  /** A payload without `exp` never expires: it is accepted at every time. */
  lemma NoExpiryAlwaysAccepted(token: string, now: int, later: int, decode: string -> Option<Payload>)
    requires DecodeJwtPayload(token, now, decode).Some?
    requires DecodeJwtPayload(token, now, decode).value.exp.None?
    ensures DecodeJwtPayload(token, later, decode) == DecodeJwtPayload(token, now, decode)
  {}

  /** A token accepted now was accepted earlier too: expiry only ever turns acceptance off. */
  lemma AcceptedEarlier(token: string, now: int, earlier: int, decode: string -> Option<Payload>)
    requires earlier <= now
    requires DecodeJwtPayload(token, now, decode).Some?
    ensures DecodeJwtPayload(token, earlier, decode) == DecodeJwtPayload(token, now, decode)
  {}

  /** getTokenFromLocalStorage. */
  function StoredToken(slot: Slot): (t: Option<string>)
    ensures t.Some? <==> slot.Stored?
    ensures t.Some? ==> t.value == slot.link.token
  {
    if slot.Stored? then Some(slot.link.token) else None
  }

  /** getCrmToken: a non-empty cookie token wins; otherwise whatever the stored link holds. */
  function CrmToken(cookie: Option<string>, slot: Slot): (t: Option<string>)
    ensures Truthy(cookie) ==> t == cookie
    ensures !Truthy(cookie) ==> t == StoredToken(slot)
  {
    if Truthy(cookie) then cookie else StoredToken(slot)
  }

  /** The accepted payload of getCrmToken's token, if it has one. */
  function TokenPayload(cookie: Option<string>, slot: Slot, now: int, decode: string -> Option<Payload>)
    : Option<Payload>
  {
    var token := CrmToken(cookie, slot);
    if Truthy(token) then DecodeJwtPayload(token.value, now, decode) else None
  }

  /** getCrmStudentId: a non-empty studentId from an accepted token, else None. */
  function StudentId(cookie: Option<string>, slot: Slot, now: int, decode: string -> Option<Payload>)
    : (id: Option<string>)
    ensures id.Some? ==> id.value != ""
    ensures var p := TokenPayload(cookie, slot, now, decode);
            id.Some? <==> p.Some? && Truthy(p.value.studentId)
    ensures id.Some? ==> id == TokenPayload(cookie, slot, now, decode).value.studentId
  {
    var token := CrmToken(cookie, slot);
    if !Truthy(token) then None
    else
      match DecodeJwtPayload(token.value, now, decode)
      case Some(p) => if Truthy(p.studentId) then p.studentId else None
      case None => None
  }

  /** With a cookie token present the stored link makes no difference to the student id. */
  lemma CookieWins(cookie: Option<string>, s1: Slot, s2: Slot, now: int, decode: string -> Option<Payload>)
    requires Truthy(cookie)
    ensures StudentId(cookie, s1, now, decode) == StudentId(cookie, s2, now, decode)
  {}

  /** Without a cookie token and without a stored link there is no student. */
  lemma NoTokenNoStudent(cookie: Option<string>, now: int, decode: string -> Option<Payload>)
    requires !Truthy(cookie)
    ensures StudentId(cookie, Empty, now, decode).None?
    ensures StudentId(cookie, Unparsable, now, decode).None?
  {}

  /** getCrmLink's answer: the stored link when its token is still accepted. */
  function LinkOf(slot: Slot, now: int, decode: string -> Option<Payload>): (r: Option<CrmLink>)
    ensures r.Some? <==> slot.Stored? && DecodeJwtPayload(slot.link.token, now, decode).Some?
    ensures r.Some? ==> r.value == slot.link
  {
    if slot.Stored? && DecodeJwtPayload(slot.link.token, now, decode).Some? then Some(slot.link) else None
  }

  /** The slot after getCrmLink: a link whose token is rejected is removed; text that does
      not parse stays. */
  function Checked(slot: Slot, now: int, decode: string -> Option<Payload>): (r: Slot)
    ensures r == Empty || r == slot
    ensures r == slot <==> !slot.Stored? || LinkOf(slot, now, decode).Some?
  {
    if slot.Stored? && LinkOf(slot, now, decode).None? then Empty else slot
  }

  /** Checking a second time finds the same link and removes nothing more. */
  lemma CheckIdempotent(slot: Slot, now: int, decode: string -> Option<Payload>)
    ensures Checked(Checked(slot, now, decode), now, decode) == Checked(slot, now, decode)
    ensures LinkOf(Checked(slot, now, decode), now, decode) == LinkOf(slot, now, decode)
  {}

  /** getCrmStudentName: the stored link's name (even an empty one), else the cookie
      token's phone, else its studentId, else None; the stored link's token is never
      consulted for the name. */
  function StudentName(slot: Slot, cookie: Option<string>, now: int, decode: string -> Option<Payload>)
    : (name: Option<string>)
    ensures LinkOf(slot, now, decode).Some? ==> name == Some(slot.link.studentName)
    ensures LinkOf(slot, now, decode).None? ==>
      var p := if Truthy(cookie) then DecodeJwtPayload(cookie.value, now, decode) else None;
      && (p.Some? && Truthy(p.value.phone) ==> name == p.value.phone)
      && (p.Some? && !Truthy(p.value.phone) && Truthy(p.value.studentId) ==> name == p.value.studentId)
      && (p.None? || (!Truthy(p.value.phone) && !Truthy(p.value.studentId)) ==> name.None?)
  {
    match LinkOf(slot, now, decode)
    case Some(link) => Some(link.studentName)
    case None =>
      if !Truthy(cookie) then None
      else
        match DecodeJwtPayload(cookie.value, now, decode)
        case None => None
        case Some(p) => if Truthy(p.phone) then p.phone else if Truthy(p.studentId) then p.studentId else None
  }

  /** The device's stored link. */
  class CrmStore {
    var slot: Slot

    constructor ()
      ensures slot == Empty
    {
      slot := Empty;
    }

    /** getCrmToken, with the cookie's decoded value passed in. */
    function GetCrmToken(cookie: Option<string>): (t: Option<string>)
      reads this
      ensures t == CrmToken(cookie, slot)
    {
      if Truthy(cookie) then cookie else if slot.Stored? then Some(slot.link.token) else None
    }

    /** getCrmStudentId: reads without writing. */
    function GetCrmStudentId(cookie: Option<string>, now: int, decode: string -> Option<Payload>)
      : (id: Option<string>)
      reads this
      ensures id == StudentId(cookie, slot, now, decode)
    {
      StudentId(cookie, slot, now, decode)
    }

    /** getCrmLink: removes a link whose token is rejected. */
    method GetCrmLink(now: int, decode: string -> Option<Payload>) returns (link: Option<CrmLink>)
      modifies this
      ensures link == LinkOf(old(slot), now, decode)
      ensures slot == Checked(old(slot), now, decode)
    {
      match slot
      case Empty => return None;
      case Unparsable => return None;
      case Stored(l) =>
        if DecodeJwtPayload(l.token, now, decode).None? {
          slot := Empty;
          return None;
        }
        return Some(l);
    }

    /** getCrmUrl: the link's URL when set, else the configured one (`env`, "" if unset). */
    method GetCrmUrl(now: int, decode: string -> Option<Payload>, env: string) returns (url: string)
      modifies this
      ensures var l := LinkOf(old(slot), now, decode);
              url == if l.Some? && l.value.crmUrl != "" then l.value.crmUrl else env
      ensures slot == Checked(old(slot), now, decode)
    {
      var link := GetCrmLink(now, decode);
      if link.Some? && link.value.crmUrl != "" {
        return link.value.crmUrl;
      }
      return env;
    }

    /** isLinkedToCrm. */
    method IsLinkedToCrm(now: int, decode: string -> Option<Payload>) returns (linked: bool)
      modifies this
      ensures linked <==> old(slot).Stored? && DecodeJwtPayload(old(slot).link.token, now, decode).Some?
      ensures slot == Checked(old(slot), now, decode)
    {
      var link := GetCrmLink(now, decode);
      linked := link.Some?;
    }

    /** getCrmStudentName. */
    method GetCrmStudentName(cookie: Option<string>, now: int, decode: string -> Option<Payload>)
      returns (name: Option<string>)
      modifies this
      ensures name == StudentName(old(slot), cookie, now, decode)
      ensures slot == Checked(old(slot), now, decode)
    {
      var link := GetCrmLink(now, decode);
      if link.Some? {
        return Some(link.value.studentName);
      }
      if !Truthy(cookie) {
        return None;
      }
      var payload := DecodeJwtPayload(cookie.value, now, decode);
      if payload.None? {
        return None;
      }
      var p := payload.value;
      name := if Truthy(p.phone) then p.phone else if Truthy(p.studentId) then p.studentId else None;
    }

    /** unlinkCrm. */
    method UnlinkCrm()
      modifies this
      ensures slot == Empty
    {
      slot := Empty;
    }
  }
}

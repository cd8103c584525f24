/** The invite link of src/main.rs and the query parser it is meant for (RFC 3986 sections 2.1, 2.3 and 3.4). */
module InviteUrl {
  import opened Common

  const AMPERSAND: Byte := 38
  const EQUALS: Byte := 61
  const PERCENT: Byte := 37

  /** Letters, digits and `-`, `_`, `.`, `~`: the unreserved characters. */
  predicate Unreserved(b: Byte) {
    65 <= b <= 90 || 97 <= b <= 122 || 48 <= b <= 57 || b == 45 || b == 95 || b == 46 || b == 126
  }

  /** One uppercase hexadecimal digit. */
  function Hex(n: nat): Byte
    requires n < 16
  {
    if n < 10 then 48 + n else 55 + n
  }

  function Digit(b: Byte): Option<nat> {
    if 48 <= b <= 57 then Some(b - 48)
    else if 65 <= b <= 70 then Some(b - 55)
    else if 97 <= b <= 102 then Some(b - 87)
    else None
  }

  function EncodeByte(b: Byte): seq<Byte> {
    if Unreserved(b) then [b] else [PERCENT, Hex(b / 16), Hex(b % 16)]
  }

  function UrlEncode(value: seq<Byte>): seq<Byte> {
    if value == [] then [] else EncodeByte(value[0]) + UrlEncode(value[1..])
  }

  function UrlDecode(s: seq<Byte>): Option<seq<Byte>>
    decreases |s|
  {
    if s == [] then Some([])
    else if s[0] != PERCENT then
      var more := UrlDecode(s[1..]);
      if more.None? then None else Some([s[0]] + more.value)
    else if |s| < 3 || Digit(s[1]).None? || Digit(s[2]).None? then None
    else
      var more := UrlDecode(s[3..]);
      if more.None? then None else Some([Digit(s[1]).value * 16 + Digit(s[2]).value] + more.value)
  }

  lemma HexDigits(b: Byte)
    ensures Digit(Hex(b / 16)) == Some(b / 16) && Digit(Hex(b % 16)) == Some(b % 16)
    ensures (b / 16) * 16 + b % 16 == b && !Unreserved(PERCENT)
  {
  }

  lemma DecodeByte(b: Byte, rest: seq<Byte>)
    ensures UrlDecode(EncodeByte(b) + rest) ==
            if UrlDecode(rest).None? then None else Some([b] + UrlDecode(rest).value)
  {
    hide Hex, Digit, Unreserved, UrlDecode;
    HexDigits(b);
    var s := EncodeByte(b) + rest;
    DecodeFirst(s);
    if Unreserved(b) {
      assert s[1..] == rest;
    } else {
      assert s[3..] == rest;
    }
  }

  lemma DecodeFirst(s: seq<Byte>)
    requires s != []
    ensures UrlDecode(s) ==
            if s[0] != PERCENT then
              (if UrlDecode(s[1..]).None? then None else Some([s[0]] + UrlDecode(s[1..]).value))
            else if |s| < 3 || Digit(s[1]).None? || Digit(s[2]).None? || UrlDecode(s[3..]).None? then None
            else Some([Digit(s[1]).value * 16 + Digit(s[2]).value] + UrlDecode(s[3..]).value)
  {
    hide Digit;
  }

  /** Percent-decoding gives every byte string back. */
  lemma {:induction false} DecodeInvertsEncode(value: seq<Byte>)
    ensures UrlDecode(UrlEncode(value)) == Some(value)
  {
    hide UrlDecode, EncodeByte;
    if value == [] {
      DecodeNothing();
    } else {
      DecodeInvertsEncode(value[1..]);
      DecodeByte(value[0], UrlEncode(value[1..]));
      assert value == [value[0]] + value[1..];
    }
  }

  lemma DecodeNothing()
    ensures UrlDecode([]) == Some([])
  {
  }

  /** An encoded value is plain text for a URL: unreserved characters and percent signs only. */
  lemma {:induction false} EncodedAlphabet(value: seq<Byte>)
    ensures forall b :: b in UrlEncode(value) ==> Unreserved(b) || b == PERCENT
  {
    if value != [] {
      EncodedAlphabet(value[1..]);
    }
  }

  /** Section 2.3 of RFC 3986. */
  predicate UnreservedChar(c: char) {
    'A' <= c <= 'Z' || 'a' <= c <= 'z' || '0' <= c <= '9' || c in "-._~"
  }

  /** Unreserved characters stand for themselves, every other byte is a percent sign and two uppercase digits. */
  lemma EncodesByteWise(b: Byte)
    ensures UrlEncode([b]) == if b < 128 && UnreservedChar(b as char) then [b]
                              else Ascii(['%', "0123456789ABCDEF"[b / 16], "0123456789ABCDEF"[b % 16]])
  {
    assert [b][1..] == [] && EncodeByte(b) + [] == EncodeByte(b);
    HexChar(b / 16);
    HexChar(b % 16);
    hide Hex;
  }

  lemma HexChar(n: nat)
    requires n < 16
    ensures "0123456789ABCDEF"[n] as int == Hex(n)
  {
  }

  // ---------------------------------------------------------------------
  // The query list
  // ---------------------------------------------------------------------

  type Pair = (seq<Byte>, seq<Byte>)

  function Join(parts: seq<seq<Byte>>, separator: Byte): seq<Byte> {
    if parts == [] then []
    else if |parts| == 1 then parts[0]
    else parts[0] + [separator] + Join(parts[1..], separator)
  }

  /** The first occurrence of the separator, or the end. */
  function IndexOf(s: seq<Byte>, separator: Byte): (n: nat)
    ensures n <= |s| && (forall i :: 0 <= i < n ==> s[i] != separator) && (n < |s| ==> s[n] == separator)
  {
    if s == [] || s[0] == separator then 0 else 1 + IndexOf(s[1..], separator)
  }

  function Split(s: seq<Byte>, separator: Byte): seq<seq<Byte>>
    decreases |s|
  {
    var n := IndexOf(s, separator);
    if n == |s| then [s] else [s[..n]] + Split(s[n + 1..], separator)
  }

  lemma {:induction false} IndexIs(s: seq<Byte>, separator: Byte, n: nat)
    requires n <= |s| && separator !in s[..n] && (n < |s| ==> s[n] == separator)
    ensures IndexOf(s, separator) == n
  {
    if n > 0 {
      assert s[..n][0] == s[0] && s[1..][..n - 1] == s[..n][1..];
      IndexIs(s[1..], separator, n - 1);
    }
  }

  lemma {:induction false} SplitJoin(parts: seq<seq<Byte>>, separator: Byte)
    requires parts != [] && forall i :: 0 <= i < |parts| ==> separator !in parts[i]
    ensures Split(Join(parts, separator), separator) == parts
    decreases |parts|
  {
    var s := Join(parts, separator);
    if |parts| > 1 {
      var rest := Join(parts[1..], separator);
      assert s[|parts[0]|] == separator && s[..|parts[0]|] == parts[0] && s[|parts[0]| + 1..] == rest;
      IndexIs(s, separator, |parts[0]|);
      SplitJoin(parts[1..], separator);
    } else {
      IndexIs(s, separator, |s|);
    }
  }

  function Part(p: Pair): seq<Byte> {
    p.0 + [EQUALS] + UrlEncode(p.1)
  }

  function Parts(query: seq<Pair>): (ps: seq<seq<Byte>>)
    ensures |ps| == |query| && forall i :: 0 <= i < |ps| ==> ps[i] == Part(query[i])
  {
    seq(|query|, i requires 0 <= i < |query| => Part(query[i]))
  }

  /** `waypad://invite?` */
  const PREFIX: seq<Byte> := [119, 97, 121, 112, 97, 100, 58, 47, 47, 105, 110, 118, 105, 116, 101, 63]

  function Link(query: seq<Pair>): seq<Byte> {
    PREFIX + Join(Parts(query), AMPERSAND)
  }

  function ParsePart(part: seq<Byte>): Option<Pair> {
    var n := IndexOf(part, EQUALS);
    if n == |part| || UrlDecode(part[n + 1..]).None? then None
    else Some((part[..n], UrlDecode(part[n + 1..]).value))
  }

  function ParseParts(parts: seq<seq<Byte>>): Option<seq<Pair>> {
    if parts == [] then Some([])
    else
      var first, more := ParsePart(parts[0]), ParseParts(parts[1..]);
      if first.None? || more.None? then None else Some([first.value] + more.value)
  }

  function ParseLink(link: seq<Byte>): Option<seq<Pair>> {
    if PREFIX <= link then ParseParts(Split(link[|PREFIX|..], AMPERSAND)) else None
  }

  predicate PlainKeys(query: seq<Pair>) {
    forall i :: 0 <= i < |query| ==> forall b :: b in query[i].0 ==> Unreserved(b)
  }

  lemma ParsePartInverts(p: Pair)
    requires forall b :: b in p.0 ==> Unreserved(b)
    ensures ParsePart(Part(p)) == Some(p) && AMPERSAND !in Part(p)
  {
    hide UrlEncode, UrlDecode;
    DecodeInvertsEncode(p.1);
    EncodedAlphabet(p.1);
    var part := Part(p);
    assert part[|p.0|] == EQUALS && part[..|p.0|] == p.0 && part[|p.0| + 1..] == UrlEncode(p.1);
    IndexIs(part, EQUALS, |p.0|);
  }

  lemma {:induction false} ParsePartsInverts(query: seq<Pair>)
    requires PlainKeys(query)
    ensures ParseParts(Parts(query)) == Some(query)
  {
    hide ParsePart, Unreserved, Part;
    if query != [] {
      ParsePartInverts(query[0]);
      assert Parts(query)[1..] == Parts(query[1..]);
      ParsePartsInverts(query[1..]);
      assert query == [query[0]] + query[1..];
    }
  }

  /** Splitting and percent-decoding a link recovers the query list, whatever bytes the values hold. */
  lemma LinkRoundTrip(query: seq<Pair>)
    requires query != [] && PlainKeys(query)
    ensures ParseLink(Link(query)) == Some(query)
  {
    hide ParsePart, ParseParts, Unreserved, Part, Split, Join;
    ParsePartsInverts(query);
    forall i | 0 <= i < |query| ensures AMPERSAND !in Parts(query)[i] {
      ParsePartInverts(query[i]);
    }
    SplitJoin(Parts(query), AMPERSAND);
    assert Link(query)[|PREFIX|..] == Join(Parts(query), AMPERSAND);
  }

  lemma PlainKey(s: string)
    requires forall i :: 0 <= i < |s| ==> s[i] == '_' || 'a' <= s[i] <= 'z'
    ensures forall b :: b in Ascii(s) ==> Unreserved(b)
  {
    forall b | b in Ascii(s) ensures Unreserved(b) {
      var i :| 0 <= i < |s| && Ascii(s)[i] == b;
      assert s[i] == '_' || 'a' <= s[i] <= 'z';
    }
  }

  /** The fields of an invite; numbers and flags already written out. */
  datatype Invite = Invite(host: seq<Byte>, address: seq<Byte>, remoteAddress: Option<seq<Byte>>, port: seq<Byte>,
                           fingerprint: seq<Byte>, code: seq<Byte>, expires: seq<Byte>, route: seq<Byte>,
                           policy: seq<Byte>, publicPairing: seq<Byte>)

  function Endpoint(i: Invite): seq<Pair> {
    var primary := if i.remoteAddress.Some? then i.remoteAddress.value else i.address;
    [(Ascii("v"), [49]), (Ascii("host"), i.host), (Ascii("address"), primary), (Ascii("lan_address"), i.address),
     (Ascii("port"), i.port), (Ascii("fingerprint"), i.fingerprint)]
  }

  function Terms(i: Invite): seq<Pair> {
    [(Ascii("code"), i.code), (Ascii("expires"), i.expires), (Ascii("route"), i.route), (Ascii("policy"), i.policy),
     (Ascii("public_pairing_allowed"), i.publicPairing)]
  }

  function Remote(i: Invite): seq<Pair> {
    if i.remoteAddress.Some? then [(Ascii("remote_address"), i.remoteAddress.value)] else []
  }

  function Query(i: Invite): seq<Pair> {
    Endpoint(i) + Terms(i) + Remote(i)
  }

  function InvitePayload(i: Invite): seq<Byte> {
    Link(Query(i))
  }

  /** A phone that splits and decodes an invite gets every field that was put in. */
  lemma InviteRecovered(i: Invite)
    ensures ParseLink(InvitePayload(i)) == Some(Query(i))
  {
    hide ParseLink, Link, Endpoint, Terms, Remote, Unreserved;
    EndpointKeys(i);
    TermKeys(i);
    LinkRoundTrip(Query(i));
  }

  /** The value of the first pair with this key. */
  function Lookup(query: seq<Pair>, key: string): Option<seq<Byte>> {
    if query == [] then None
    else if query[0].0 == Ascii(key) then Some(query[0].1)
    else Lookup(query[1..], key)
  }

  const KEYS: seq<string> := ["v", "host", "address", "lan_address", "port", "fingerprint",
                              "code", "expires", "route", "policy", "public_pairing_allowed", "remote_address"]

  lemma KeysDiffer()
    ensures forall j, k :: 0 <= j < k < |KEYS| ==> KEYS[j] != KEYS[k]
    ensures forall k :: 0 <= k < |KEYS| ==> IsAscii(KEYS[k])
  {
  }

  predicate IsAscii(s: string) {
    forall i :: 0 <= i < |s| ==> s[i] < 128 as char
  }

  lemma AsciiInjective(a: string, b: string)
    requires IsAscii(a) && IsAscii(b) && Ascii(a) == Ascii(b)
    ensures a == b
  {
    assert |a| == |Ascii(a)| == |b|;
    forall i | 0 <= i < |a| ensures a[i] == b[i] {
      assert Ascii(a)[i] == Ascii(b)[i];
    }
  }

  lemma {:induction false} LookupAt(query: seq<Pair>, first: nat, k: nat)
    requires first <= k < first + |query| <= |KEYS|
    requires forall j :: 0 <= j < |query| ==> query[j].0 == Ascii(KEYS[first + j])
    ensures Lookup(query, KEYS[k]) == Some(query[k - first].1)
  {
    hide Ascii, KEYS;
    if k > first {
      KeysDiffer();
      if Ascii(KEYS[first]) == Ascii(KEYS[k]) {
        AsciiInjective(KEYS[first], KEYS[k]);
      }
      LookupAt(query[1..], first + 1, k);
    }
  }

  lemma {:induction false} LookupNothing(query: seq<Pair>, first: nat)
    requires first + |query| < |KEYS|
    requires forall j :: 0 <= j < |query| ==> query[j].0 == Ascii(KEYS[first + j])
    ensures Lookup(query, KEYS[|KEYS| - 1]) == None
  {
    hide Ascii, KEYS;
    if query != [] {
      KeysDiffer();
      if Ascii(KEYS[first]) == Ascii(KEYS[|KEYS| - 1]) {
        AsciiInjective(KEYS[first], KEYS[|KEYS| - 1]);
      }
      LookupNothing(query[1..], first + 1);
    }
  }

  lemma QueryKeys(i: Invite)
    ensures var q := Query(i);
            && |q| == (if i.remoteAddress.Some? then 12 else 11)
            && (forall k :: 0 <= k < |q| ==> q[k].0 == Ascii(KEYS[k]))
  {
    hide Ascii;
  }

  lemma Found(i: Invite, k: nat)
    requires k < |Query(i)|
    ensures k < |KEYS| && Lookup(Query(i), KEYS[k]) == Some(Query(i)[k].1)
  {
    KeysSpelled();
    hide *;
    QueryKeys(i);
    LookupAt(Query(i), 0, k);
  }

  /** The link says which scheme it is, and every field is found under its name. */
  lemma InviteFields(i: Invite)
    ensures Ascii("waypad://invite?") <= InvitePayload(i)
    ensures ParseLink(InvitePayload(i)).Some?
    ensures var q := ParseLink(InvitePayload(i)).value;
            && Lookup(q, "v") == Some(Ascii("1")) && Lookup(q, "host") == Some(i.host)
            && Lookup(q, "address") == Some(if i.remoteAddress.Some? then i.remoteAddress.value else i.address)
            && Lookup(q, "lan_address") == Some(i.address) && Lookup(q, "port") == Some(i.port)
            && Lookup(q, "fingerprint") == Some(i.fingerprint) && Lookup(q, "code") == Some(i.code)
            && Lookup(q, "expires") == Some(i.expires) && Lookup(q, "route") == Some(i.route)
            && Lookup(q, "policy") == Some(i.policy) && Lookup(q, "public_pairing_allowed") == Some(i.publicPairing)
            && Lookup(q, "remote_address") == i.remoteAddress
  {
    InviteRecovered(i);
    PrefixSpelled();
    assert PREFIX <= InvitePayload(i);
    hide Lookup, ParseLink, InvitePayload, Ascii;
    FieldsFound(i);
  }

  lemma PrefixSpelled()
    ensures PREFIX == Ascii("waypad://invite?") && Ascii("1") == [49]
  {
  }

  lemma FieldsFound(i: Invite)
    ensures var q := Query(i);
            && Lookup(q, "v") == Some([49]) && Lookup(q, "host") == Some(i.host)
            && Lookup(q, "address") == Some(if i.remoteAddress.Some? then i.remoteAddress.value else i.address)
            && Lookup(q, "lan_address") == Some(i.address) && Lookup(q, "port") == Some(i.port)
            && Lookup(q, "fingerprint") == Some(i.fingerprint) && Lookup(q, "code") == Some(i.code)
            && Lookup(q, "expires") == Some(i.expires) && Lookup(q, "route") == Some(i.route)
            && Lookup(q, "policy") == Some(i.policy) && Lookup(q, "public_pairing_allowed") == Some(i.publicPairing)
            && Lookup(q, "remote_address") == i.remoteAddress
  {
    QueryValues(i);
    KeysSpelled();
    hide *;
    Found(i, 0);
    Found(i, 1);
    Found(i, 2);
    Found(i, 3);
    Found(i, 4);
    Found(i, 5);
    Found(i, 6);
    Found(i, 7);
    Found(i, 8);
    Found(i, 9);
    Found(i, 10);
    RemoteFound(i);
  }

  lemma RemoteFound(i: Invite)
    ensures Lookup(Query(i), KEYS[11]) == i.remoteAddress
  {
    QueryValues(i);
    QueryKeys(i);
    hide Lookup, Ascii, Query;
    if i.remoteAddress.Some? {
      Found(i, 11);
    } else {
      LookupNothing(Query(i), 0);
    }
  }

  lemma KeysSpelled()
    ensures |KEYS| == 12
    ensures KEYS[0] == "v" && KEYS[1] == "host" && KEYS[2] == "address" && KEYS[3] == "lan_address" && KEYS[4] == "port"
    ensures KEYS[5] == "fingerprint" && KEYS[6] == "code" && KEYS[7] == "expires" && KEYS[8] == "route"
    ensures KEYS[9] == "policy" && KEYS[10] == "public_pairing_allowed" && KEYS[11] == "remote_address"
  {
  }

  lemma QueryValues(i: Invite)
    ensures var q := Query(i);
            && |q| >= 11 && q[0].1 == [49] && q[1].1 == i.host
            && q[2].1 == (if i.remoteAddress.Some? then i.remoteAddress.value else i.address)
            && q[3].1 == i.address && q[4].1 == i.port && q[5].1 == i.fingerprint && q[6].1 == i.code
            && q[7].1 == i.expires && q[8].1 == i.route && q[9].1 == i.policy && q[10].1 == i.publicPairing
            && (i.remoteAddress.Some? ==> |q| == 12 && q[11].1 == i.remoteAddress.value)
  {
    hide Ascii;
  }

  lemma EndpointKeys(i: Invite)
    ensures PlainKeys(Endpoint(i)) && Endpoint(i) != []
  {
    hide Ascii, Unreserved;
    PlainKey("v");
    PlainKey("host");
    PlainKey("address");
    PlainKey("lan_address");
    PlainKey("port");
    PlainKey("fingerprint");
  }

  lemma TermKeys(i: Invite)
    ensures PlainKeys(Terms(i)) && PlainKeys(Remote(i))
  {
    hide Ascii, Unreserved;
    PlainKey("code");
    PlainKey("expires");
    PlainKey("route");
    PlainKey("policy");
    PlainKey("public_pairing_allowed");
    PlainKey("remote_address");
  }
}

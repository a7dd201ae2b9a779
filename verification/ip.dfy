/**
 IP addresses as the program sees them (Rust's `std::net::IpAddr`): four
 octets or eight 16-bit segments. This module holds
 - the public/private classifier `is_public` of src/db.rs, written with the
   standard-library predicates it calls spelled out;
 - an independent reference for it: the table of reserved blocks in CIDR
   notation, with the proof that the classifier calls exactly the addresses
   outside the table public;
 - the text form the program stores (`ip.to_string()`) and the parser it reads
   collector output with (`str::parse::<IpAddr>()`), with the round trip
   that makes the text form injective.
 */
module Ip {
  import opened Base
  import opened Text

  type Octets = s: seq<bv8> | |s| == 4 witness [0, 0, 0, 0]
  type Segments = s: seq<bv16> | |s| == 8 witness [0, 0, 0, 0, 0, 0, 0, 0]

  datatype IpAddr = V4(octets: Octets) | V6(segments: Segments)

  // ---------------------------------------------------------------------
  // The classifier, as the program and Rust's standard library write it
  // ---------------------------------------------------------------------

  /** `Ipv4Addr::is_private`: 10/8, 172.16/12, 192.168/16 (RFC 1918, section 3) */
  predicate IsPrivate4(o: Octets) {
    o[0] == 10 || (o[0] == 172 && 16 <= o[1] <= 31) || (o[0] == 192 && o[1] == 168)
  }

  /** `Ipv4Addr::is_loopback`: 127/8 */
  predicate IsLoopback4(o: Octets) {
    o[0] == 127
  }

  /** `Ipv4Addr::is_link_local`: 169.254/16 */
  predicate IsLinkLocal4(o: Octets) {
    o[0] == 169 && o[1] == 254
  }

  /** `Ipv4Addr::is_broadcast`: 255.255.255.255 */
  predicate IsBroadcast4(o: Octets) {
    o == [255, 255, 255, 255]
  }

  /** `Ipv4Addr::is_documentation`: 192.0.2/24, 198.51.100/24, 203.0.113/24 (RFC 5737, section 3) */
  predicate IsDocumentation4(o: Octets) {
    || (o[0] == 192 && o[1] == 0 && o[2] == 2)
    || (o[0] == 198 && o[1] == 51 && o[2] == 100)
    || (o[0] == 203 && o[1] == 0 && o[2] == 113)
  }

  /** `Ipv4Addr::is_unspecified`: 0.0.0.0 */
  predicate IsUnspecified4(o: Octets) {
    o == [0, 0, 0, 0]
  }

  /** `Ipv6Addr::is_loopback`: ::1 (RFC 4291, section 2.5.3) */
  predicate IsLoopback6(s: Segments) {
    s == [0, 0, 0, 0, 0, 0, 0, 1]
  }

  /** `Ipv6Addr::is_unspecified`: :: (RFC 4291, section 2.5.2) */
  predicate IsUnspecified6(s: Segments) {
    s == [0, 0, 0, 0, 0, 0, 0, 0]
  }

  /** The program's unique-local test, fc00::/7 (RFC 4193, section 3.1) */
  predicate IsUniqueLocal6(s: Segments) {
    (s[0] & 0xfe00) == 0xfc00
  }

  /** The program's link-local test, fe80::/10 (RFC 4291, section 2.5.6) */
  predicate IsLinkLocal6(s: Segments) {
    (s[0] & 0xffc0) == 0xfe80
  }

  /** The program's documentation test, 2001:db8::/32 (RFC 3849, section 2) */
  predicate IsDocumentation6(s: Segments) {
    s[0] == 0x2001 && s[1] == 0xdb8
  }

  /** `is_public`: an address is public unless one of the exclusions above
      applies; equivalently, unless it lies in a block of the reserved table. */
  function IsPublic(ip: IpAddr): (public: bool)
    ensures public <==> !IsReserved(ip)
  {
    ClassifierMatchesTable(ip);
    match ip
    case V4(o) =>
      && !IsPrivate4(o)
      && !IsLoopback4(o)
      && !IsLinkLocal4(o)
      && !IsBroadcast4(o)
      && !IsDocumentation4(o)
      && !IsUnspecified4(o)
    case V6(s) =>
      && !IsLoopback6(s)
      && !IsUnspecified6(s)
      && !IsUniqueLocal6(s)
      && !IsLinkLocal6(s)
      && !IsDocumentation6(s)
  }

  /** The unique-local mask test is the segment interval 0xfc00..0xfdff. */
  lemma UniqueLocalMaskIsInterval(s: Segments)
    ensures IsUniqueLocal6(s) <==> 0xfc00 <= s[0] <= 0xfdff
  {}

  /** The link-local mask test is the segment interval 0xfe80..0xfebf. */
  lemma LinkLocalMaskIsInterval(s: Segments)
    ensures IsLinkLocal6(s) <==> 0xfe80 <= s[0] <= 0xfebf
  {}

  // ---------------------------------------------------------------------
  // The reference: reserved blocks in CIDR notation (RFC 6890, section 2.2)
  // ---------------------------------------------------------------------

  /** An address block: a base address and a prefix length */
  datatype Block = Block4(base4: bv32, len4: bv32) | Block6(base6: bv128, len6: bv128)

  /** The address as one 32-bit number, most significant octet first */
  function Bits4(o: Octets): bv32 {
    (o[0] as bv32 << 24) | (o[1] as bv32 << 16) | (o[2] as bv32 << 8) | (o[3] as bv32)
  }

  /** The address as one 128-bit number, most significant segment first */
  function Bits6(s: Segments): bv128 {
    (s[0] as bv128 << 112) | (s[1] as bv128 << 96) | (s[2] as bv128 << 80) | (s[3] as bv128 << 64)
    | (s[4] as bv128 << 48) | (s[5] as bv128 << 32) | (s[6] as bv128 << 16) | (s[7] as bv128)
  }

  /** True when the first `len` bits of the address agree with the block's base */
  predicate InBlock(ip: IpAddr, b: Block) {
    match (ip, b)
    case (V4(o), Block4(base, len)) =>
      len <= 32 && Bits4(o) >> (32 - len) == base >> (32 - len)
    case (V6(s), Block6(base, len)) =>
      len <= 128 && Bits6(s) >> (128 - len) == base >> (128 - len)
    case _ => false
  }

  const Rfc1918Ten := Block4(0x0A00_0000, 8)
  const Rfc1918OneSevenTwo := Block4(0xAC10_0000, 12)
  const Rfc1918OneNineTwo := Block4(0xC0A8_0000, 16)
  const Loopback4 := Block4(0x7F00_0000, 8)
  const LinkLocal4 := Block4(0xA9FE_0000, 16)
  const Broadcast4 := Block4(0xFFFF_FFFF, 32)
  const TestNet1 := Block4(0xC000_0200, 24)
  const TestNet2 := Block4(0xC633_6400, 24)
  const TestNet3 := Block4(0xCB00_7100, 24)
  const Unspecified4 := Block4(0, 32)
  const Loopback6 := Block6(1, 128)
  const Unspecified6 := Block6(0, 128)
  const UniqueLocal6 := Block6(0xfc00_0000_0000_0000_0000_0000_0000_0000, 7)
  const LinkLocal6 := Block6(0xfe80_0000_0000_0000_0000_0000_0000_0000, 10)
  const Documentation6 := Block6(0x2001_0db8_0000_0000_0000_0000_0000_0000, 32)

  /** The IPv4 blocks the classifier excludes */
  const Reserved4: seq<Block> := [
    Rfc1918Ten, Rfc1918OneSevenTwo, Rfc1918OneNineTwo, Loopback4, LinkLocal4,
    Broadcast4, TestNet1, TestNet2, TestNet3, Unspecified4
  ]

  /** The IPv6 blocks the classifier excludes */
  const Reserved6: seq<Block> := [Loopback6, Unspecified6, UniqueLocal6, LinkLocal6, Documentation6]

  /** An address in one of the reserved blocks of its family */
  predicate IsReserved(ip: IpAddr) {
    match ip
    case V4(_) => exists i :: 0 <= i < |Reserved4| && InBlock(ip, Reserved4[i])
    case V6(_) => exists i :: 0 <= i < |Reserved6| && InBlock(ip, Reserved6[i])
  }

  /** Membership in the IPv4 table is one of its ten block tests. */
  lemma Reserved4IsOneOfTheBlocks(o: Octets)
    ensures IsReserved(V4(o)) <==>
      || InBlock(V4(o), Rfc1918Ten) || InBlock(V4(o), Rfc1918OneSevenTwo) || InBlock(V4(o), Rfc1918OneNineTwo)
      || InBlock(V4(o), Loopback4) || InBlock(V4(o), LinkLocal4) || InBlock(V4(o), Broadcast4)
      || InBlock(V4(o), TestNet1) || InBlock(V4(o), TestNet2) || InBlock(V4(o), TestNet3)
      || InBlock(V4(o), Unspecified4)
  {
    var t := Reserved4;
    assert t[0] == Rfc1918Ten && t[1] == Rfc1918OneSevenTwo && t[2] == Rfc1918OneNineTwo;
    assert t[3] == Loopback4 && t[4] == LinkLocal4 && t[5] == Broadcast4;
    assert t[6] == TestNet1 && t[7] == TestNet2 && t[8] == TestNet3 && t[9] == Unspecified4;
  }

  /** Membership in the IPv6 table is one of its five block tests. */
  lemma Reserved6IsOneOfTheBlocks(s: Segments)
    ensures IsReserved(V6(s)) <==>
      || InBlock(V6(s), Loopback6) || InBlock(V6(s), Unspecified6) || InBlock(V6(s), UniqueLocal6)
      || InBlock(V6(s), LinkLocal6) || InBlock(V6(s), Documentation6)
  {
    var t := Reserved6;
    assert t[0] == Loopback6 && t[1] == Unspecified6 && t[2] == UniqueLocal6;
    assert t[3] == LinkLocal6 && t[4] == Documentation6;
  }

  // Each standard-library predicate is exactly its block (or blocks).

  lemma PrivateIsRfc1918(o: Octets)
    ensures IsPrivate4(o) <==>
      InBlock(V4(o), Rfc1918Ten) || InBlock(V4(o), Rfc1918OneSevenTwo) || InBlock(V4(o), Rfc1918OneNineTwo)
  {}

  lemma LoopbackIsBlock4(o: Octets)
    ensures IsLoopback4(o) <==> InBlock(V4(o), Loopback4)
  {}

  lemma LinkLocalIsBlock4(o: Octets)
    ensures IsLinkLocal4(o) <==> InBlock(V4(o), LinkLocal4)
  {}

  lemma BroadcastIsBlock4(o: Octets)
    ensures IsBroadcast4(o) <==> InBlock(V4(o), Broadcast4)
  {
    assert IsBroadcast4(o) <==> o[0] == 255 && o[1] == 255 && o[2] == 255 && o[3] == 255;
  }

  lemma DocumentationIsTestNets(o: Octets)
    ensures IsDocumentation4(o) <==>
      InBlock(V4(o), TestNet1) || InBlock(V4(o), TestNet2) || InBlock(V4(o), TestNet3)
  {}

  lemma UnspecifiedIsBlock4(o: Octets)
    ensures IsUnspecified4(o) <==> InBlock(V4(o), Unspecified4)
  {
    assert IsUnspecified4(o) <==> o[0] == 0 && o[1] == 0 && o[2] == 0 && o[3] == 0;
  }

  lemma LoopbackIsBlock6(s: Segments)
    ensures IsLoopback6(s) <==> InBlock(V6(s), Loopback6)
  {
    assert IsLoopback6(s) <==>
      s[0] == 0 && s[1] == 0 && s[2] == 0 && s[3] == 0 && s[4] == 0 && s[5] == 0 && s[6] == 0 && s[7] == 1;
  }

  lemma UnspecifiedIsBlock6(s: Segments)
    ensures IsUnspecified6(s) <==> InBlock(V6(s), Unspecified6)
  {
    assert IsUnspecified6(s) <==>
      s[0] == 0 && s[1] == 0 && s[2] == 0 && s[3] == 0 && s[4] == 0 && s[5] == 0 && s[6] == 0 && s[7] == 0;
  }

  lemma UniqueLocalIsBlock6(s: Segments)
    ensures IsUniqueLocal6(s) <==> InBlock(V6(s), UniqueLocal6)
  {}

  lemma LinkLocalIsBlock6(s: Segments)
    ensures IsLinkLocal6(s) <==> InBlock(V6(s), LinkLocal6)
  {}

  lemma DocumentationIsBlock6(s: Segments)
    ensures IsDocumentation6(s) <==> InBlock(V6(s), Documentation6)
  {}

  /** The classifier's exclusions are exactly the reserved table. */
  lemma ClassifierMatchesTable(ip: IpAddr)
    ensures match ip
      case V4(o) =>
        IsReserved(ip) <==>
          IsPrivate4(o) || IsLoopback4(o) || IsLinkLocal4(o) || IsBroadcast4(o) || IsDocumentation4(o) || IsUnspecified4(o)
      case V6(s) =>
        IsReserved(ip) <==>
          IsLoopback6(s) || IsUnspecified6(s) || IsUniqueLocal6(s) || IsLinkLocal6(s) || IsDocumentation6(s)
  {
    match ip
    case V4(o) =>
      Reserved4IsOneOfTheBlocks(o);
      PrivateIsRfc1918(o);
      LoopbackIsBlock4(o);
      LinkLocalIsBlock4(o);
      BroadcastIsBlock4(o);
      DocumentationIsTestNets(o);
      UnspecifiedIsBlock4(o);
    case V6(s) =>
      Reserved6IsOneOfTheBlocks(s);
      LoopbackIsBlock6(s);
      UnspecifiedIsBlock6(s);
      UniqueLocalIsBlock6(s);
      LinkLocalIsBlock6(s);
      DocumentationIsBlock6(s);
  }

  // ---------------------------------------------------------------------
  // Text form
  // ---------------------------------------------------------------------

  /** An octet in decimal, as `Display` prints it */
  function Decimal(o: bv8): string {
    Digits(o as nat, 10)
  }

  /** A segment in lower-case hex without leading zeros */
  function Hex(g: bv16): string {
    Digits(g as nat, 16)
  }

  function HexParts(g: seq<bv16>): (parts: seq<string>)
    ensures |parts| == |g|
    ensures forall i :: 0 <= i < |g| ==> parts[i] == Hex(g[i])
  {
    if |g| == 0 then [] else [Hex(g[0])] + HexParts(g[1..])
  }

  /** `ip.to_string()`: dotted decimal for IPv4; for IPv6 the eight groups in
      full, without the `::` shortening. */
  function ToString(ip: IpAddr): string {
    match ip
    case V4(o) => Join([Decimal(o[0]), Decimal(o[1]), Decimal(o[2]), Decimal(o[3])], '.')
    case V6(s) => Join(HexParts(s), ':')
  }

  /** The octet whose value is `n`, counted up one at a time */
  function OctetOf(n: nat): (o: bv8)
    requires n < 256
    ensures o as nat == n
  {
    if n == 0 then 0 else OctetOf(n - 1) + 1
  }

  /** Counting up to an octet's value gives that octet back */
  lemma OctetOfValue(o: bv8)
    ensures OctetOf(o as nat) == o
  {
    var p := OctetOf(o as nat);
    assert p as nat == o as nat;
  }

  /** One IPv4 field: 1 to 3 decimal digits, no leading zero, at most 255 */
  function ParseOctet(t: string): Option<bv8> {
    if 1 <= |t| <= 3 && AllDigits(t, 10) && !(|t| > 1 && t[0] == '0') && ValueOf(t, 10) < 256
    then Some(OctetOf(ValueOf(t, 10)))
    else None
  }

  /** `Ipv4Addr::from_str`: exactly four fields separated by `.` */
  function ParseV4(s: string): Option<Octets> {
    var parts := Split(s, '.');
    if |parts| != 4 then None
    else
      var a :- ParseOctet(parts[0]);
      var b :- ParseOctet(parts[1]);
      var c :- ParseOctet(parts[2]);
      var d :- ParseOctet(parts[3]);
      Some([a, b, c, d])
  }

  /** One IPv6 group: 1 to 4 hex digits of either case */
  function ParseGroup(t: string): Option<bv16> {
    if 1 <= |t| <= 4 && AllDigits(t, 16) then
      ValueBound(t, 16);
      PowerOfSixteen(|t|);
      Some(ValueOf(t, 16) as bv16)
    else None
  }

  lemma PowerOfSixteen(k: nat)
    requires k <= 4
    ensures Power(16, k) <= 0x1_0000
  {
    assert Power(16, 0) == 1 && Power(16, 1) == 0x10 && Power(16, 2) == 0x100;
    assert Power(16, 3) == 0x1000 && Power(16, 4) == 0x1_0000;
  }

  /** Consecutive IPv6 groups; the last may be an embedded IPv4 address
      (two groups) when `v4Last` */
  function ParseGroups(parts: seq<string>, v4Last: bool): Option<seq<bv16>>
    decreases |parts|
  {
    if |parts| == 0 then Some([])
    else if |parts| == 1 && v4Last && ParseV4(parts[0]).Some? then
      var o := ParseV4(parts[0]).value;
      Some([(o[0] as bv16 << 8) | o[1] as bv16, (o[2] as bv16 << 8) | o[3] as bv16])
    else
      var g :- ParseGroup(parts[0]);
      var rest :- ParseGroups(parts[1..], v4Last);
      Some([g] + rest)
  }

  function Zeros(n: nat): seq<bv16> {
    seq(n, _ => 0)
  }

  /** `Ipv6Addr::from_str`: eight groups, or fewer around one `::` that stands
      for at least one zero group; an embedded IPv4 address may end the text */
  function ParseV6(s: string): Option<Segments> {
    match FindDouble(s, ':')
    case None =>
      var groups :- ParseGroups(Split(s, ':'), true);
      if |groups| == 8 then Some(groups) else None
    case Some(i) =>
      var left := s[..i];
      var right := s[i + 2..];
      var head :- if left == "" then Some([]) else ParseGroups(Split(left, ':'), false);
      var tail :- if right == "" then Some([]) else ParseGroups(Split(right, ':'), true);
      if |head| + |tail| <= 7 then Some(head + Zeros(8 - |head| - |tail|) + tail) else None
  }

  /** `str::parse::<IpAddr>()`: IPv4 first, then IPv6 */
  function Parse(s: string): Option<IpAddr> {
    match ParseV4(s)
    case Some(o) => Some(V4(o))
    case None =>
      match ParseV6(s)
      case Some(g) => Some(V6(g))
      case None => None
  }

  // ---------------------------------------------------------------------
  // Round trip
  // ---------------------------------------------------------------------

  lemma DecimalParses(o: bv8)
    ensures ParseOctet(Decimal(o)) == Some(o)
    ensures |Decimal(o)| >= 1 && '.' !in Decimal(o) && ':' !in Decimal(o) && ',' !in Decimal(o)
  {
    var t := Decimal(o);
    OctetOfValue(o);
    DigitsValue(o as nat, 10);
    DigitsNoLeadingZero(o as nat, 10);
    assert Power(10, 3) == 1000;
    DigitsLength(o as nat, 10, 3);
    DigitCharsOnly(t, 10);
  }

  lemma HexParses(g: bv16)
    ensures ParseGroup(Hex(g)) == Some(g)
    ensures |Hex(g)| >= 1 && '.' !in Hex(g) && ':' !in Hex(g) && ',' !in Hex(g)
  {
    var t := Hex(g);
    DigitsValue(g as nat, 16);
    assert Power(16, 4) == 0x1_0000;
    DigitsLength(g as nat, 16, 4);
    DigitCharsOnly(t, 16);
  }

  /** Digit strings hold none of the separators. */
  lemma DigitCharsOnly(t: string, base: nat)
    requires AllDigits(t, base)
    ensures '.' !in t && ':' !in t && ',' !in t
  {
    forall i | 0 <= i < |t|
      ensures t[i] != '.' && t[i] != ':' && t[i] != ','
    {
      assert IsDigitIn(t[i], base);
    }
  }

  lemma {:induction false} HexPartsParse(g: seq<bv16>)
    ensures ParseGroups(HexParts(g), true) == Some(g)
    decreases |g|
  {
    if |g| > 0 {
      var parts := HexParts(g);
      HexParses(g[0]);
      SplitNoSeparator(parts[0], '.');
      assert parts[1..] == HexParts(g[1..]);
      HexPartsParse(g[1..]);
      assert [g[0]] + g[1..] == g;
    }
  }

  /** Every address's text parses back to the address. */
  lemma {:induction false} ParseToString(ip: IpAddr)
    ensures Parse(ToString(ip)) == Some(ip)
  {
    match ip
    case V4(o) => ParseToString4(o);
    case V6(s) => ParseToString6(s);
  }

  lemma ParseToString4(o: Octets)
    ensures ParseV4(ToString(V4(o))) == Some(o)
  {
    var parts := DecimalPieces(o);
    SplitJoin(parts, '.');
    assert ParseV4(ToString(V4(o))) == Some([o[0], o[1], o[2], o[3]]);
    assert [o[0], o[1], o[2], o[3]] == o;
  }

  /** The four printed fields of an IPv4 address, each parsing back */
  lemma DecimalPieces(o: Octets) returns (parts: seq<string>)
    ensures parts == [Decimal(o[0]), Decimal(o[1]), Decimal(o[2]), Decimal(o[3])]
    ensures forall i :: 0 <= i < 4 ==> ParseOctet(parts[i]) == Some(o[i]) && '.' !in parts[i]
  {
    parts := [Decimal(o[0]), Decimal(o[1]), Decimal(o[2]), Decimal(o[3])];
    DecimalParses(o[0]);
    DecimalParses(o[1]);
    DecimalParses(o[2]);
    DecimalParses(o[3]);
  }

  lemma ParseToString6(s: Segments)
    ensures Parse(ToString(V6(s))) == Some(V6(s))
  {
    var parts := HexParts(s);
    var text := Join(parts, ':');
    forall i | 0 <= i < |parts|
      ensures |parts[i]| > 0 && ':' !in parts[i] && '.' !in parts[i]
    {
      HexParses(s[i]);
    }
    NoSeparatorInJoin(parts, ':', '.');
    SplitNoSeparator(text, '.');
    assert ParseV4(text) == None;
    JoinHasNoDouble(parts, ':');
    SplitJoin(parts, ':');
    HexPartsParse(s);
  }

  /** A join holds a character only if the separator or a piece does. */
  lemma NoSeparatorInJoin(parts: seq<string>, sep: char, c: char)
    requires c != sep
    requires forall i :: 0 <= i < |parts| ==> c !in parts[i]
    ensures c !in Join(parts, sep)
  {
    if c in Join(parts, sep) {
      JoinChars(parts, sep, c);
    }
  }

  /** The text form is injective: two addresses with the same text are equal. */
  lemma ToStringInjective(a: IpAddr, b: IpAddr)
    requires ToString(a) == ToString(b)
    ensures a == b
  {
    ParseToString(a);
    ParseToString(b);
  }

  /** A field that parses as an octet is that octet's printed form. */
  lemma OctetIsCanonical(t: string, o: bv8)
    requires ParseOctet(t) == Some(o)
    ensures t == Decimal(o)
  {
    CanonicalDigits(t, 10);
  }

  /** IPv4 text is canonical: the only text that parses to an IPv4 address is
      its printed form (no leading zeros, no other spellings). */
  lemma ParseV4IsCanonical(s: string, o: Octets)
    requires Parse(s) == Some(V4(o))
    ensures s == ToString(V4(o))
  {
    assert ParseV4(s) == Some(o);
    var parts := Split(s, '.');
    OctetIsCanonical(parts[0], o[0]);
    OctetIsCanonical(parts[1], o[1]);
    OctetIsCanonical(parts[2], o[2]);
    OctetIsCanonical(parts[3], o[3]);
    JoinSplit(s, '.');
    assert parts == [Decimal(o[0]), Decimal(o[1]), Decimal(o[2]), Decimal(o[3])];
  }

  /** The stored text never contains the `,` that GROUP_CONCAT separates with,
      and is never empty. */
  lemma ToStringHasNoComma(ip: IpAddr)
    ensures ',' !in ToString(ip) && |ToString(ip)| > 0
  {
    match ip
    case V4(o) => ToStringHasNoComma4(o);
    case V6(s) => ToStringHasNoComma6(s);
  }

  lemma ToStringHasNoComma4(o: Octets)
    ensures ',' !in ToString(V4(o)) && |ToString(V4(o))| > 0
  {
    var parts := [Decimal(o[0]), Decimal(o[1]), Decimal(o[2]), Decimal(o[3])];
    forall i | 0 <= i < 4
      ensures ',' !in parts[i] && |parts[i]| > 0
    {
      DecimalHasNoComma(o[i]);
    }
    NoSeparatorInJoin(parts, '.', ',');
    JoinFirstChar(parts, '.');
  }

  lemma DecimalHasNoComma(o: bv8)
    ensures ',' !in Decimal(o) && |Decimal(o)| > 0
  {
    DecimalParses(o);
  }

  lemma ToStringHasNoComma6(s: Segments)
    ensures ',' !in ToString(V6(s)) && |ToString(V6(s))| > 0
  {
    var parts := HexParts(s);
    forall i | 0 <= i < |parts|
      ensures ',' !in parts[i] && |parts[i]| > 0 && ':' !in parts[i]
    {
      HexParses(s[i]);
    }
    NoSeparatorInJoin(parts, ':', ',');
    JoinFirstChar(parts, ':');
  }
}

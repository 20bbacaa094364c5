/** The text a host-transfer ticket carries, and the Host header it is presented under. */
module TransferCodec {
  import opened Common
  import opened Strings

  const MARKER: string := "host-transfer|"
  const METADATA_LIMIT: nat := 255

  // ---------------------------------------------------------- accepted names

  predicate IsDigit(c: char) { '0' <= c <= '9' }

  predicate IsLowerLetter(c: char) { 'a' <= c <= 'z' }

  predicate IsAlnum(c: char) { IsDigit(c) || IsLowerLetter(c) || 'A' <= c <= 'Z' }

  predicate ValidAppName(app: string) {
    app != "" && forall c | c in app :: IsLowerLetter(c) || IsDigit(c) || c == '-'
  }

  predicate ValidLabel(part: string) {
    && 0 < |part| <= 63
    && part[0] != '-' && part[|part| - 1] != '-'
    && forall c | c in part :: IsAlnum(c) || c == '-'
  }

  predicate ValidHostname(host: string) {
    0 < |host| <= 253 && forall part | part in Split(host, '.') :: ValidLabel(part)
  }

  /** The one text per UUID that parsing and printing leaves alone: lower case, hyphenated. */
  predicate CanonicalUuid(s: string) {
    && |s| == 36
    && forall i | 0 <= i < 36 ::
         if i in {8, 13, 18, 23} then s[i] == '-' else IsDigit(s[i]) || 'a' <= s[i] <= 'f'
  }

  const LOWER: string := "abcdefghijklmnopqrstuvwxyz"
  const UPPER: string := "ABCDEFGHIJKLMNOPQRSTUVWXYZ"
  const DIGITS: string := "0123456789"
  const HEX: string := "0123456789abcdef"

  /** The four character classes, listed. */
  lemma ClassesExact(c: char)
    ensures IsDigit(c) <==> c in DIGITS
    ensures IsLowerLetter(c) <==> c in LOWER
    ensures IsAlnum(c) <==> c in DIGITS || c in LOWER || c in UPPER
  {
    DigitListed(c);
    LowerListed(c);
    UpperListed(c);
  }

  lemma DigitListed(c: char)
    ensures '0' <= c <= '9' <==> c in DIGITS
  {
    if '0' <= c <= '9' {
      assert DIGITS[c as int - 48] == c;
    }
  }

  lemma LowerListed(c: char)
    ensures 'a' <= c <= 'z' <==> c in LOWER
  {
    if 'a' <= c <= 'z' {
      assert LOWER[c as int - 97] == c;
    }
  }

  lemma UpperListed(c: char)
    ensures 'A' <= c <= 'Z' <==> c in UPPER
  {
    if 'A' <= c <= 'Z' {
      assert UPPER[c as int - 65] == c;
    }
  }

  /** Lower-casing turns each capital into the letter at its place in the alphabet and leaves all else. */
  lemma LowerCharExact(c: char)
    ensures c !in UPPER ==> LowerChar(c) == c
    ensures forall k | 0 <= k < 26 && c == UPPER[k] :: LowerChar(c) == LOWER[k]
  {
    UpperListed(c);
    forall k | 0 <= k < 26 && c == UPPER[k] ensures LowerChar(c) == LOWER[k] {
      AlphabetsAlign(k);
    }
  }

  lemma AlphabetsAlign(k: int)
    requires 0 <= k < 26
    ensures UPPER[k] as int == 65 + k && LOWER[k] as int == 97 + k
  {
  }

  /** App names are made of lower-case letters, digits and hyphens. */
  lemma AppNameExact(app: string)
    ensures ValidAppName(app) <==> app != "" && forall c | c in app :: c in LOWER || c in DIGITS || c == '-'
  {
    forall c: char {
      ClassesExact(c);
    }
  }

  /** A label has up to 63 letters, digits and hyphens, with no hyphen at its ends. */
  ghost predicate IsLabel(part: string) {
    && 1 <= |part| <= 63 && !StartsWith(part, "-") && !EndsWith(part, "-")
    && forall c | c in part :: c in LOWER || c in UPPER || c in DIGITS || c == '-'
  }

  lemma LabelExact(part: string)
    ensures ValidLabel(part) <==> IsLabel(part)
  {
    forall c: char {
      ClassesExact(c);
    }
    if part != "" {
      assert StartsWith(part, "-") <==> part[0] == '-' by {
        assert part[..1] == [part[0]];
      }
      assert EndsWith(part, "-") <==> part[|part| - 1] == '-' by {
        assert part[|part| - 1..] == [part[|part| - 1]];
      }
    }
  }

  /** Host names are labels joined by dots, of up to 253 characters. */
  lemma HostnameExact(labels: seq<string>)
    requires labels != [] && forall part | part in labels :: '.' !in part
    ensures ValidHostname(Join(labels, ".")) <==>
            |Join(labels, ".")| <= 253 && forall part | part in labels :: IsLabel(part)
  {
    SplitOfJoin(labels, '.');
    forall part: string {
      LabelExact(part);
    }
    if forall part | part in labels :: IsLabel(part) {
      assert labels[0] in labels;
      assert |labels| > 1 ==> Join(labels, ".") == labels[0] + "." + Join(labels[1..], ".");
    }
  }

  /** A UUID in its five groups of lower-case hexadecimal digits. */
  ghost predicate IsUuid(s: string, a: string, b: string, c: string, d: string, e: string) {
    && s == a + "-" + b + "-" + c + "-" + d + "-" + e
    && |a| == 8 && |b| == |c| == |d| == 4 && |e| == 12 && forall x | x in a + b + c + d + e :: x in HEX
  }

  lemma HexListed(c: char)
    ensures c in HEX <==> IsDigit(c) || 'a' <= c <= 'f'
  {
    if IsDigit(c) {
      assert HEX[c as int - 48] == c;
    } else if 'a' <= c <= 'f' {
      assert HEX[c as int - 87] == c;
    }
  }

  lemma UuidExact(s: string)
    ensures CanonicalUuid(s) <==> exists a, b, c, d, e :: IsUuid(s, a, b, c, d, e)
  {
    forall c: char {
      HexListed(c);
    }
    if CanonicalUuid(s) {
      var a, b, c, d, e := s[..8], s[9..13], s[14..18], s[19..23], s[24..];
      assert s == a + "-" + b + "-" + c + "-" + d + "-" + e;
      assert IsUuid(s, a, b, c, d, e);
    }
    forall a, b, c, d, e | IsUuid(s, a, b, c, d, e) ensures CanonicalUuid(s) {
      GroupsAreUuid(s, a, b, c, d, e);
    }
  }

  lemma GroupsAreUuid(s: string, a: string, b: string, c: string, d: string, e: string)
    requires IsUuid(s, a, b, c, d, e)
    ensures CanonicalUuid(s)
  {
    var all := a + b + c + d + e;
    forall i | 0 <= i < 36
      ensures if i in {8, 13, 18, 23} then s[i] == '-' else IsDigit(s[i]) || 'a' <= s[i] <= 'f'
    {
      if i !in {8, 13, 18, 23} {
        var k := if i < 8 then i else if i < 13 then i - 1 else if i < 18 then i - 2 else if i < 23 then i - 3 else i - 4;
        assert s[i] == all[k] && all[k] in all;
        HexListed(s[i]);
      }
    }
  }

  lemma HostnameCharset(host: string)
    requires ValidHostname(host)
    ensures forall c | c in host :: IsAlnum(c) || c == '-' || c == '.'
  {
    SplitPieces(host, '.');
  }

  // ------------------------------------------------------------ ticket text

  function Text(host: string, app: string, sid: string): string {
    MARKER + (host + ['|'] + (app + ['|'] + sid))
  }

  /** `transfer_metadata`: absent when it would not fit the column. */
  function Metadata(host: string, app: string, sid: string): Option<string> {
    var text := Text(host, app, sid);
    if |text| <= METADATA_LIMIT then Some(text) else None
  }

  /** `transfer_source`: the app and session of a ticket presented at `host`. */
  function Source(agent: Option<string>, host: string): Option<(string, string)> {
    if agent.None? then None else
    var stripped := StripPrefix(agent.value, MARKER);
    if stripped.None? then None else
    var first := SplitOnce(stripped.value, '|');
    if first.None? then None else
    var (expected, rest) := first.value;
    var second := SplitOnce(rest, '|');
    if second.None? then None else
    var (app, sid) := second.value;
    if expected != host || !ValidHostname(expected) then None
    else if !ValidAppName(app) then None
    else if CanonicalUuid(sid) then Some((app, sid))
    else None
  }

  lemma SourceOfText(host: string, app: string, sid: string, presented: string)
    requires ValidHostname(host) && ValidAppName(app) && CanonicalUuid(sid)
    ensures Source(Some(Text(host, app, sid)), presented)
         == if presented == host then Some((app, sid)) else None
  {
    HostnameCharset(host);
    var rest := app + ['|'] + sid;
    assert Text(host, app, sid)[|MARKER|..] == host + ['|'] + rest;
    SplitOnceAt(host, '|', rest);
    SplitOnceAt(app, '|', sid);
  }

  /** Parsing what was printed gives the parts back at the target host, and nothing at any other host. */
  lemma SourceOfMetadata(host: string, app: string, sid: string, presented: string)
    requires ValidHostname(host) && ValidAppName(app) && CanonicalUuid(sid)
    requires Metadata(host, app, sid).Some?
    ensures Source(Metadata(host, app, sid), presented)
         == if presented == host then Some((app, sid)) else None
  {
    SourceOfText(host, app, sid, presented);
  }

  /** Only the printer's own output is ever accepted: the accepted text is determined by its parts. */
  lemma MetadataOfSource(agent: string, host: string)
    requires Source(Some(agent), host).Some?
    ensures var (app, sid) := Source(Some(agent), host).value;
      && ValidHostname(host) && ValidAppName(app) && CanonicalUuid(sid)
      && agent == Text(host, app, sid)
      && (|agent| <= METADATA_LIMIT <==> Metadata(host, app, sid) == Some(agent))
  {
    assert agent == MARKER + StripPrefix(agent, MARKER).value;
  }

  /** The column limit cuts exactly the hosts and app names that together pass 203 characters. */
  lemma MetadataFits(host: string, app: string, sid: string)
    requires CanonicalUuid(sid)
    ensures Metadata(host, app, sid).Some? <==> |host| + |app| <= 203
  {
    assert |MARKER| == 14;
  }

  // ------------------------------------------------------------- Host header

  function DigitsValue(s: string): nat
    requires forall c | c in s :: IsDigit(c)
  {
    if s == "" then 0 else 
      assert IsDigit(s[|s| - 1]);
      10 * DigitsValue(s[..|s| - 1]) + (s[|s| - 1] as int - '0' as int)
  }

  /** `parse::<u16>` accepts digits with an optional plus sign; zero is refused afterwards. */
  predicate ValidPort(port: string) {
    var digits := if StartsWith(port, "+") then port[1..] else port;
    && digits != ""
    && (forall c | c in digits :: IsDigit(c))
    && 0 < DigitsValue(digits) <= 65535
  }

  /** Decimal notation. */
  lemma DigitsValueExact(s: string, d: char)
    requires d in DIGITS && forall c | c in s :: IsDigit(c)
    ensures (forall c | c in s + [d] :: IsDigit(c)) && DigitsValue("") == 0
    ensures exists k | 0 <= k < 10 :: DIGITS[k] == d && DigitsValue(s + [d]) == 10 * DigitsValue(s) + k
  {
    ClassesExact(d);
    var k := d as int - 48;
    assert DIGITS[k] == d && (s + [d])[..|s + [d]| - 1] == s;
  }

  /** A port is a number from 1 to 65535 in decimal digits, with or without a plus sign in front. */
  lemma PortExact(sign: string, digits: string)
    requires sign in {"", "+"} && !StartsWith(digits, "+")
    ensures ValidPort(sign + digits) <==>
            digits != "" && (forall c | c in digits :: c in DIGITS) && (forall c | c in digits :: IsDigit(c)) &&
            1 <= DigitsValue(digits) <= 65535
  {
    forall c: char {
      ClassesExact(c);
    }
    if sign == "" {
      assert sign + digits == digits;
    } else {
      assert (sign + digits)[1..] == digits;
    }
  }

  /** The host text and the port text (with its colon) of a header, unless the port is malformed. */
  function HeaderParts(raw: string): (r: Option<(string, string)>)
    ensures r.Some? ==> raw == r.value.0 + r.value.1 && WellFormedPort(r.value.1)
  {
    match RSplitOnce(raw, ':')
    case None => assert raw + "" == raw; Some((raw, ""))
    case Some((host, port)) =>
      if ':' !in host && ValidPort(port) then Some((host, [':'] + port)) else None
  }

  predicate WellFormedPort(port: string) {
    port == "" || (port[0] == ':' && ValidPort(port[1..]))
  }

  lemma HeaderPartsOf(host: string, port: string)
    requires ':' !in host && WellFormedPort(port)
    ensures HeaderParts(host + port) == Some((host, port))
  {
    if port == "" {
      assert host + port == host;
    } else {
      var tail := port[1..];
      assert ':' !in tail by {
        forall i | 0 <= i < |tail| ensures tail[i] != ':' {
          assert IsDigit(tail[i]) || tail[i] == '+' by {
            if i > 0 || tail[0] != '+' {
              var digits := if StartsWith(tail, "+") then tail[1..] else tail;
              assert tail[i] in digits;
            }
          }
        }
      }
      assert port == [':'] + tail;
      assert host + port == host + [':'] + tail;
      RSplitOnceAt(host, ':', tail);
    }
  }

  /** `request_host`: the lower-cased host, and the port text with its colon. */
  function RequestHost(raw: string): Option<(string, string)> {
    match HeaderParts(raw)
    case None => None
    case Some((host, port)) =>
      var lowered := AsciiLower(host);
      if ValidHostname(lowered) then Some((lowered, port)) else None
  }

  /** The header is accepted exactly for the spellings of a valid host, in any letter case, with or without a port. */
  lemma RequestHostExact(name: string, port: string)
    requires ValidHostname(AsciiLower(name)) && WellFormedPort(port)
    ensures RequestHost(name + port) == Some((AsciiLower(name), port))
  {
    var host := AsciiLower(name);
    HostnameCharset(host);
    forall i | 0 <= i < |name| ensures name[i] != ':' {
      assert host[i] == LowerChar(name[i]) && host[i] in host;
    }
    HeaderPartsOf(name, port);
  }

  lemma RequestHostOnly(raw: string) returns (name: string, port: string)
    requires RequestHost(raw).Some?
    ensures raw == name + port && WellFormedPort(port) && ValidHostname(AsciiLower(name))
    ensures RequestHost(raw) == Some((AsciiLower(name), port))
  {
    name, port := HeaderParts(raw).value.0, HeaderParts(raw).value.1;
  }
}

/**
 * The gateway's reader for arp-scan output: recognising dotted-quad IPv4
 * addresses and turning each scan line into an (ip, mac, company) entry.
 */
module NetworkScan {
  import opened Wrappers

  // ---------------------------------------------------------------------
  // `str.split(sep)` and `sep.join(parts)` for a one-character separator
  // ---------------------------------------------------------------------

  /** `s.split(sep)`: the pieces between separators; an empty string gives `[""]`. */
  function Split(s: string, sep: char): (parts: seq<string>)
    ensures |parts| >= 1
    ensures forall i :: 0 <= i < |parts| ==> sep !in parts[i]
    decreases |s|
  {
    if s == [] then [""]
    else
      var rest := Split(s[1..], sep);
      if s[0] == sep then [""] + rest
      else [[s[0]] + rest[0]] + rest[1..]
  }

  /** `sep.join(parts)`. */
  function Join(parts: seq<string>, sep: char): string
    decreases |parts|
  {
    if parts == [] then ""
    else if |parts| == 1 then parts[0]
    else parts[0] + [sep] + Join(parts[1..], sep)
  }

  /** Joining the pieces of a split with the same separator rebuilds the string. */
  lemma {:induction false} JoinSplit(s: string, sep: char)
    ensures Join(Split(s, sep), sep) == s
    decreases |s|
  {
    if s != [] {
      var rest := Split(s[1..], sep);
      JoinSplit(s[1..], sep);
      if s[0] == sep {
        assert ([""] + rest)[1..] == rest;
      } else if |rest| > 1 {
        assert Join(rest, sep) == rest[0] + [sep] + Join(rest[1..], sep);
        assert ([[s[0]] + rest[0]] + rest[1..])[1..] == rest[1..];
      }
    }
  }

  /** Text without a separator extends the first piece of whatever follows it. */
  lemma {:induction false} SplitPrefix(p: string, t: string, sep: char)
    requires sep !in p
    ensures Split(p + t, sep) == [p + Split(t, sep)[0]] + Split(t, sep)[1..]
    decreases |p|
  {
    if p != [] {
      assert (p + t)[0] == p[0];
      assert (p + t)[1..] == p[1..] + t;
      SplitPrefix(p[1..], t, sep);
      assert [p[0]] + (p[1..] + Split(t, sep)[0]) == p + Split(t, sep)[0];
    } else {
      assert p + t == t;
      assert p + Split(t, sep)[0] == Split(t, sep)[0];
      assert Split(t, sep) == [Split(t, sep)[0]] + Split(t, sep)[1..];
    }
  }

  /** Splitting a join of separator-free pieces gives the pieces back. */
  lemma {:induction false} SplitJoin(parts: seq<string>, sep: char)
    requires |parts| >= 1
    requires forall i :: 0 <= i < |parts| ==> sep !in parts[i]
    ensures Split(Join(parts, sep), sep) == parts
    decreases |parts|
  {
    if |parts| == 1 {
      SplitPrefix(parts[0], "", sep);
      assert parts[0] + "" == parts[0];
    } else {
      var tail := Join(parts[1..], sep);
      SplitJoin(parts[1..], sep);
      assert parts[0] + [sep] + tail == parts[0] + ([sep] + tail);
      SplitPrefix(parts[0], [sep] + tail, sep);
      assert ([sep] + tail)[0] == sep && ([sep] + tail)[1..] == tail;
      assert Split([sep] + tail, sep) == [""] + parts[1..];
      assert parts[0] + "" == parts[0];
      assert parts == [parts[0]] + parts[1..];
    }
  }

  // ---------------------------------------------------------------------
  // Octets and `is_ip_address`
  // ---------------------------------------------------------------------

  predicate IsDigit(c: char) {
    '0' <= c <= '9'
  }

  /** `part.isdigit()`: non-empty and every character a digit. */
  predicate IsDigits(s: string) {
    |s| > 0 && forall i :: 0 <= i < |s| ==> IsDigit(s[i])
  }

  /** `int(part)` on a digit string. */
  function DigitsValue(s: string): nat
    requires forall i :: 0 <= i < |s| ==> IsDigit(s[i])
    decreases |s|
  {
    if s == [] then 0
    else
      assert IsDigit(s[|s| - 1]);
      DigitsValue(s[..|s| - 1]) * 10 + (s[|s| - 1] as int - '0' as int)
  }

  /** One of the four pieces is a number from 0 to 255 (leading zeros allowed, as `int` allows them). */
  predicate IsOctet(p: string) {
    IsDigits(p) && DigitsValue(p) <= 255
  }

  /** The early-return loop over the pieces. */
  function AllOctets(parts: seq<string>): (ok: bool)
    ensures ok <==> forall i :: 0 <= i < |parts| ==> IsOctet(parts[i])
    decreases |parts|
  {
    if parts == [] then true
    else if !IsOctet(parts[0]) then false
    else
      var rest := AllOctets(parts[1..]);
      assert forall i :: 1 <= i < |parts| ==> parts[i] == parts[1..][i - 1];
      rest
  }

  /** `is_ip_address`: exactly four dot-separated pieces, each a number from 0 to 255. */
  function IsIpAddress(ip: string): (ok: bool)
    ensures ok <==> |Split(ip, '.')| == 4 && forall i :: 0 <= i < 4 ==> IsOctet(Split(ip, '.')[i])
  {
    var parts := Split(ip, '.');
    |parts| == 4 && AllOctets(parts)
  }

  /** The decimal text of `n`, without leading zeros. */
  function Decimal(n: nat): (s: string)
    ensures IsDigits(s) && DigitsValue(s) == n
    decreases n
  {
    var d := ['0' + ((n % 10) as char)];
    if n < 10 then d
    else
      var front := Decimal(n / 10);
      var s := front + d;
      assert s[..|s| - 1] == front;
      s
  }

  /** The dotted-quad text of four numbers. */
  function Dotted(a: nat, b: nat, c: nat, d: nat): string {
    Join([Decimal(a), Decimal(b), Decimal(c), Decimal(d)], '.')
  }

  /**
   * An address is accepted exactly when it is four octets joined by dots:
   * every accepted string splits into such octets and rebuilds from them, and
   * every dotted quad of numbers up to 255 is accepted.
   */
  lemma IpAddressIsFourOctets(ip: string)
    requires IsIpAddress(ip)
    ensures var p := Split(ip, '.');
            ip == Join(p, '.') && IsOctet(p[0]) && IsOctet(p[1]) && IsOctet(p[2]) && IsOctet(p[3])
  {
    JoinSplit(ip, '.');
  }

  lemma DottedQuadAccepted(a: nat, b: nat, c: nat, d: nat)
    requires a <= 255 && b <= 255 && c <= 255 && d <= 255
    ensures IsIpAddress(Dotted(a, b, c, d))
  {
    var parts := [Decimal(a), Decimal(b), Decimal(c), Decimal(d)];
    forall i | 0 <= i < 4
      ensures '.' !in parts[i]
    {
      assert IsDigits(parts[i]);
      assert forall k :: 0 <= k < |parts[i]| ==> parts[i][k] != '.';
    }
    SplitJoin(parts, '.');
  }

  /** A number with no digits off the end, padded with `k` zeros on the left. */
  function Zeros(k: nat): (z: string)
    ensures |z| == k && forall i :: 0 <= i < k ==> z[i] == '0'
  {
    seq(k, i => '0')
  }

  /** Leading zeros do not change an octet's value: "192.168.001.010" is accepted. */
  lemma {:induction false} LeadingZerosIgnored(k: nat, s: string)
    requires forall i :: 0 <= i < |s| ==> IsDigit(s[i])
    ensures DigitsValue(Zeros(k) + s) == DigitsValue(s)
    decreases |s|
  {
    var z := Zeros(k) + s;
    if s == [] {
      assert z == Zeros(k);
      ZerosValue(k);
    } else {
      assert z[..|z| - 1] == Zeros(k) + s[..|s| - 1];
      LeadingZerosIgnored(k, s[..|s| - 1]);
    }
  }

  lemma {:induction false} ZerosValue(k: nat)
    ensures DigitsValue(Zeros(k)) == 0
    decreases k
  {
    if k > 0 {
      assert Zeros(k)[..k - 1] == Zeros(k - 1);
      ZerosValue(k - 1);
    }
  }

  // ---------------------------------------------------------------------
  // `line.split()` on whitespace
  // ---------------------------------------------------------------------

  /** `str.isspace` for one character. */
  predicate IsSpace(c: char) {
    c == ' ' || '\t' <= c <= '\r' || '\U{1C}' <= c <= '\U{1F}' || c == '\U{85}' || c == '\U{A0}' ||
    c == '\U{1680}' || '\U{2000}' <= c <= '\U{200A}' || c == '\U{2028}' || c == '\U{2029}' ||
    c == '\U{202F}' || c == '\U{205F}' || c == '\U{3000}'
  }

  /** A token of `str.split()`: non-empty, no whitespace. */
  predicate Word(w: string) {
    |w| > 0 && forall i :: 0 <= i < |w| ==> !IsSpace(w[i])
  }

  /** The length of the run of non-space characters at the front of `s`. */
  function WordLength(s: string): (n: nat)
    ensures n <= |s| && forall i :: 0 <= i < n ==> !IsSpace(s[i])
    ensures n < |s| ==> IsSpace(s[n])
    decreases |s|
  {
    if s == [] || IsSpace(s[0]) then 0 else 1 + WordLength(s[1..])
  }

  /** `s.split()`: the maximal runs of non-space characters, in order. */
  function Tokens(s: string): (ws: seq<string>)
    ensures forall i :: 0 <= i < |ws| ==> Word(ws[i])
    decreases |s|
  {
    if s == [] then []
    else if IsSpace(s[0]) then Tokens(s[1..])
    else
      var n := WordLength(s);
      [s[..n]] + Tokens(s[n..])
  }

  lemma {:induction false} WordLengthAppend(w: string, t: string)
    requires forall i :: 0 <= i < |w| ==> !IsSpace(w[i])
    ensures WordLength(w + t) == |w| + WordLength(t)
    decreases |w|
  {
    if w == [] {
      assert w + t == t;
    } else {
      assert (w + t)[1..] == w[1..] + t;
      WordLengthAppend(w[1..], t);
    }
  }

  /** A word followed by whitespace is the first token; the rest tokenises on its own. */
  lemma TokensAfterWord(w: string, c: char, t: string)
    requires Word(w) && IsSpace(c)
    ensures Tokens(w + ([c] + t)) == [w] + Tokens(t)
  {
    var s := w + ([c] + t);
    WordLengthAppend(w, [c] + t);
    assert s[..|w|] == w;
    assert s[|w|..] == [c] + t;
    assert ([c] + t)[1..] == t;
  }

  /** A single word is its own only token. */
  lemma TokensOfWord(w: string)
    requires Word(w)
    ensures Tokens(w) == [w]
  {
    WordLengthAppend(w, "");
    assert w + "" == w;
  }

  /** Joining words with a whitespace character and tokenising again gives the words back. */
  lemma {:induction false} TokensJoin(ws: seq<string>, c: char)
    requires IsSpace(c)
    requires forall i :: 0 <= i < |ws| ==> Word(ws[i])
    ensures Tokens(Join(ws, c)) == ws
    decreases |ws|
  {
    if |ws| == 1 {
      TokensOfWord(ws[0]);
    } else if |ws| > 1 {
      TokensJoin(ws[1..], c);
      TokensAfterWord(ws[0], c, Join(ws[1..], c));
      assert ws[0] + [c] + Join(ws[1..], c) == ws[0] + ([c] + Join(ws[1..], c));
      assert ws == [ws[0]] + ws[1..];
    }
  }

  /** The line terminator `readlines` keeps is whitespace and adds no token. */
  lemma {:induction false} TrailingSpaceIgnored(s: string, c: char)
    requires IsSpace(c)
    ensures Tokens(s + [c]) == Tokens(s)
    decreases |s|
  {
    var s' := s + [c];
    if s == [] {
      assert s'[1..] == [];
    } else if IsSpace(s[0]) {
      assert s'[1..] == s[1..] + [c];
      TrailingSpaceIgnored(s[1..], c);
    } else {
      var n := WordLength(s);
      assert s[..n] + s[n..] == s;
      WordLengthAppend(s[..n], s[n..] + [c]);
      WordLengthAppend(s[..n], s[n..]);
      assert s' == s[..n] + (s[n..] + [c]);
      assert s'[..n] == s[..n] && s'[n..] == s[n..] + [c];
      TrailingSpaceIgnored(s[n..], c);
    }
  }

  // ---------------------------------------------------------------------
  // `read_network_scan`
  // ---------------------------------------------------------------------

  /** One parsed scan line: `{"ip": ..., "mac": ..., "company": ...}`. */
  datatype ScanEntry = ScanEntry(ip: string, mac: string, company: string)

  /**
   * What the loop body does with one line: skip it, append an entry, or fail
   * (an address with no second token makes `split_line[1]` raise IndexError).
   */
  datatype LineOutcome = Skip | Entry(entry: ScanEntry) | Malformed

  /** The loop body on the tokens of one line. */
  function ParseTokens(ws: seq<string>): LineOutcome {
    if ws == [] || !IsIpAddress(ws[0]) then Skip
    else if |ws| < 2 then Malformed
    else Entry(ScanEntry(ws[0], ws[1], Join(ws[2..], ' ')))
  }

  function ParseLine(line: string): (o: LineOutcome)
    ensures o.Entry? ==> IsIpAddress(o.entry.ip)
  {
    ParseTokens(Tokens(line))
  }

  /**
   * A line gives an entry iff it has at least two tokens and the first is an
   * address, and fails iff it holds an address and nothing else; an entry's
   * ip and mac are its first two tokens and its company the rest, space-joined.
   */
  lemma ParseLineCases(line: string)
    ensures var ws, o := Tokens(line), ParseLine(line);
            && (o.Entry? <==> |ws| >= 2 && IsIpAddress(ws[0]))
            && (o.Malformed? <==> |ws| == 1 && IsIpAddress(ws[0]))
            && (o.Entry? ==> o.entry == ScanEntry(ws[0], ws[1], Join(ws[2..], ' ')) && Word(o.entry.ip) && Word(o.entry.mac))
  {
  }

  /** An arp-scan output line: address, MAC and vendor separated by tabs. */
  function ScanLine(e: ScanEntry): string {
    e.ip + (['\t'] + (e.mac + (['\t'] + e.company)))
  }

  /** After the address: the MAC, then the vendor's words. */
  lemma MacCompanyTokens(mac: string, words: seq<string>)
    requires Word(mac)
    requires forall i :: 0 <= i < |words| ==> Word(words[i])
    ensures Tokens(mac + (['\t'] + Join(words, ' '))) == [mac] + words
  {
    TokensJoin(words, ' ');
    TokensAfterWord(mac, '\t', Join(words, ' '));
  }

  /** The tokens of a scan line: address, MAC, then the vendor's words. */
  lemma ScanLineTokens(ip: string, mac: string, words: seq<string>)
    requires Word(ip) && Word(mac)
    requires forall i :: 0 <= i < |words| ==> Word(words[i])
    ensures Tokens(ip + (['\t'] + (mac + (['\t'] + Join(words, ' '))))) == [ip] + ([mac] + words)
  {
    MacCompanyTokens(mac, words);
    TokensAfterWord(ip, '\t', mac + (['\t'] + Join(words, ' ')));
  }

  /**
   * A well-formed scan line parses back to its entry; the vendor's words come
   * back joined by single spaces.
   */
  lemma ParseScanLine(ip: string, mac: string, words: seq<string>)
    requires IsIpAddress(ip) && Word(ip) && Word(mac)
    requires forall i :: 0 <= i < |words| ==> Word(words[i])
    ensures ParseLine(ScanLine(ScanEntry(ip, mac, Join(words, ' ')))) == Entry(ScanEntry(ip, mac, Join(words, ' ')))
  {
    var ws := [ip] + ([mac] + words);
    ScanLineTokens(ip, mac, words);
    assert ws[0] == ip && ws[1] == mac && ws[2..] == words;
    assert ParseTokens(ws) == Entry(ScanEntry(ip, mac, Join(words, ' ')));
  }

  /** The entries the loop appends for `lines`, in order. */
  function Kept(lines: seq<string>): (es: seq<ScanEntry>)
    ensures |es| <= |lines|
    decreases |lines|
  {
    if lines == [] then []
    else
      var es := Kept(lines[..|lines| - 1]);
      var o := ParseLine(lines[|lines| - 1]);
      if o.Entry? then es + [o.entry] else es
  }

  /** One more line appends that line's entry, if it has one. */
  lemma KeptStep(lines: seq<string>, i: nat)
    requires i < |lines|
    ensures Kept(lines[..i + 1]) ==
            Kept(lines[..i]) + (if ParseLine(lines[i]).Entry? then [ParseLine(lines[i]).entry] else [])
  {
    assert lines[..i + 1][..i] == lines[..i];
  }

  /** Every reported entry carries a valid address. */
  lemma {:induction false} KeptAddressesValid(lines: seq<string>)
    ensures forall k :: 0 <= k < |Kept(lines)| ==> IsIpAddress(Kept(lines)[k].ip)
    decreases |lines|
  {
    if lines != [] {
      var n := |lines| - 1;
      KeptAddressesValid(lines[..n]);
      KeptStep(lines, n);
      assert lines[..n + 1] == lines;
    }
  }

  /** Every reported entry is the parse of some line of the file. */
  lemma {:induction false} KeptComesFromLines(lines: seq<string>, k: nat)
    requires k < |Kept(lines)|
    ensures exists i :: 0 <= i < |lines| && ParseLine(lines[i]) == Entry(Kept(lines)[k])
    decreases |lines|
  {
    var n := |lines| - 1;
    var front := lines[..n];
    KeptStep(lines, n);
    assert lines[..n + 1] == lines;
    if k < |Kept(front)| {
      KeptComesFromLines(front, k);
      var i :| 0 <= i < |front| && ParseLine(front[i]) == Entry(Kept(front)[k]);
      assert lines[i] == front[i];
    } else {
      assert ParseLine(lines[n]) == Entry(Kept(lines)[k]);
    }
  }

  /** Scanning two chunks of a file one after the other keeps both chunks' entries in order. */
  lemma {:induction false} KeptAppend(a: seq<string>, b: seq<string>)
    ensures Kept(a + b) == Kept(a) + Kept(b)
    decreases |b|
  {
    if b == [] {
      assert a + b == a;
    } else {
      var ab := a + b;
      assert ab[..|ab| - 1] == a + b[..|b| - 1];
      assert ab[|ab| - 1] == b[|b| - 1];
      KeptAppend(a, b[..|b| - 1]);
    }
  }

  /** No line of `lines` makes the loop raise. */
  predicate NoMalformed(lines: seq<string>) {
    forall i :: 0 <= i < |lines| ==> !ParseLine(lines[i]).Malformed?
  }

  lemma NoMalformedStep(lines: seq<string>, i: nat)
    requires i < |lines| && NoMalformed(lines[..i]) && !ParseLine(lines[i]).Malformed?
    ensures NoMalformed(lines[..i + 1])
  {
    assert lines[..i + 1] == lines[..i] + [lines[i]];
  }

  /**
   * The loop of `read_network_scan` over the file's lines. It fails with the
   * index of the first line holding an address and nothing else; otherwise it
   * returns the entries of the address lines, in order.
   */
  method ParseScan(lines: seq<string>) returns (res: Result<seq<ScanEntry>, nat>)
    ensures res.Success? <==> NoMalformed(lines)
    ensures res.Success? ==> res.value == Kept(lines)
    ensures res.Failure? ==>
              res.error < |lines| && ParseLine(lines[res.error]).Malformed? && NoMalformed(lines[..res.error])
  {
    var results: seq<ScanEntry> := [];
    var i := 0;
    while i < |lines|
      invariant 0 <= i <= |lines|
      invariant results == Kept(lines[..i])
      invariant NoMalformed(lines[..i])
    {
      var outcome := ParseLine(lines[i]);
      if outcome.Malformed? {
        return Failure(i);
      }
      KeptStep(lines, i);
      NoMalformedStep(lines, i);
      if outcome.Entry? {
        results := results + [outcome.entry];
      }
      i := i + 1;
    }
    assert lines[..i] == lines;
    return Success(results);
  }

  /** `read_network_scan` given the file's lines, `None` when the file cannot be read. */
  method ReadNetworkScan(file: Option<seq<string>>) returns (res: Result<seq<ScanEntry>, nat>)
    ensures file.None? ==> res == Success([])
    ensures file.Some? ==> (res.Success? <==> NoMalformed(file.value))
    ensures file.Some? && res.Success? ==> res.value == Kept(file.value)
    ensures file.Some? && res.Failure? ==> res.error < |file.value| && ParseLine(file.value[res.error]).Malformed?
  {
    if file.None? {
      return Success([]);
    }
    res := ParseScan(file.value);
  }
}

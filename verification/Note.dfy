/** Tornado notes: printing a deposit as a dash-separated string and parsing it back
    with the note regular expression. */
module Note {
  import opened Numerals
  import opened Wrappers

  type byte = n: nat | n < 256

  function Pow256(n: nat): (r: nat)
    ensures r >= 1
  {
    if n == 0 then 1 else 256 * Pow256(n - 1)
  }

  /** `leInt2Buff`: the `len` lowest bytes, lowest first. */
  function LeBytes(n: nat, len: nat): (r: seq<byte>)
    ensures |r| == len
  {
    if len == 0 then [] else [n % 256] + LeBytes(n / 256, len - 1)
  }

  /** `leBuff2int`. */
  function FromLe(bytes: seq<byte>): nat {
    if bytes == [] then 0 else bytes[0] + 256 * FromLe(bytes[1..])
  }

  lemma {:induction false} LeRoundTrip(n: nat, len: nat)
    requires n < Pow256(len)
    ensures FromLe(LeBytes(n, len)) == n
  {
    if len == 0 {
    } else {
      LeRoundTrip(n / 256, len - 1);
    }
  }

  /** The `i`-th byte is the digit of weight 256^i. */
  lemma {:induction false} LeBytesAt(n: nat, len: nat, i: nat)
    requires i < len
    ensures LeBytes(n, len)[i] == n / Pow256(i) % 256
  {
    if i == 0 {
    } else {
      LeBytesAt(n / 256, len - 1, i - 1);
      DivDiv(n, Pow256(i - 1));
    }
  }

  lemma DivDiv(n: nat, k: nat)
    requires k > 0
    ensures n / 256 / k == n / (256 * k)
  {
    var q := n / 256 / k;
    var r := n / 256 % k;
    assert n / 256 == q * k + r;
    var t := 256 * r + n % 256;
    assert n == q * (256 * k) + t && 0 <= t < 256 * k by { assert r <= k - 1; }
    QuotientIs(n, 256 * k, q, t);
  }

  lemma QuotientIs(n: nat, m: nat, q: nat, t: nat)
    requires m > 0 && n == q * m + t && t < m
    ensures n / m == q
  {
    var d := n / m - q;
    assert d * m == t - n % m by { assert n == n / m * m + n % m; }
  }

  /** Any bytes are those of the number they read as. */
  lemma {:induction false} LeBytesOfRead(bytes: seq<byte>)
    ensures LeBytes(FromLe(bytes), |bytes|) == bytes
  {
    if bytes == [] {
    } else {
      LeBytesOfRead(bytes[1..]);
      assert FromLe(bytes) % 256 == bytes[0] && FromLe(bytes) / 256 == FromLe(bytes[1..]);
    }
  }

  lemma {:induction false} LeBounded(bytes: seq<byte>)
    ensures FromLe(bytes) < Pow256(|bytes|)
  {
    if bytes == [] {
    } else {
      LeBounded(bytes[1..]);
    }
  }

  function HexChar(d: nat): (c: char)
    requires d < 16
    ensures IsHex(c) && HexValue(c) == d && c == "0123456789abcdef"[d]
  {
    if d < 10 then ('0' as int + d) as char else ('a' as int + d - 10) as char
  }

  predicate IsHex(c: char) {
    '0' <= c <= '9' || 'a' <= c <= 'f' || 'A' <= c <= 'F'
  }

  function HexValue(c: char): (d: nat)
    requires IsHex(c)
    ensures d < 16 && (c == "0123456789abcdef"[d] || c == "0123456789ABCDEF"[d])
  {
    if '0' <= c <= '9' then c as int - '0' as int
    else if 'a' <= c <= 'f' then c as int - 'a' as int + 10
    else c as int - 'A' as int + 10
  }

  /** `Buffer.toString('hex')`. */
  function BytesToHex(bytes: seq<byte>): (s: string)
    ensures |s| == 2 * |bytes| && forall i :: 0 <= i < |s| ==> IsHex(s[i])
  {
    if bytes == [] then "" else [HexChar(bytes[0] / 16), HexChar(bytes[0] % 16)] + BytesToHex(bytes[1..])
  }

  /** `Buffer.from(s, 'hex')` of an even number of hex digits. */
  function HexToBytes(s: string): (r: seq<byte>)
    requires |s| % 2 == 0 && forall i :: 0 <= i < |s| ==> IsHex(s[i])
    ensures |r| == |s| / 2
  {
    if s == "" then [] else [16 * HexValue(s[0]) + HexValue(s[1])] + HexToBytes(s[2..])
  }

  lemma {:induction false} HexRoundTrip(bytes: seq<byte>)
    ensures HexToBytes(BytesToHex(bytes)) == bytes
  {
    if bytes == [] {
    } else {
      assert BytesToHex(bytes)[2..] == BytesToHex(bytes[1..]);
      HexRoundTrip(bytes[1..]);
    }
  }

  /** Two digits a byte, the higher half first. */
  lemma {:induction false} BytesToHexAt(bytes: seq<byte>, i: nat)
    requires i < |bytes|
    ensures BytesToHex(bytes)[2 * i] == "0123456789abcdef"[bytes[i] / 16]
    ensures BytesToHex(bytes)[2 * i + 1] == "0123456789abcdef"[bytes[i] % 16]
  {
    if i == 0 {
    } else {
      BytesToHexAt(bytes[1..], i - 1);
    }
  }

  function PadStart(s: string, n: nat): string
    decreases n - |s|
  {
    if |s| >= n then s else PadStart("0" + s, n)
  }

  /** `toHex` of a buffer. */
  function ToHex(bytes: seq<byte>, length: nat): string {
    "0x" + PadStart(BytesToHex(bytes), length * 2)
  }

  /** A number in hexadecimal. */
  function HexDigits(n: nat): (s: string)
    ensures s != "" && forall i :: 0 <= i < |s| ==> IsHex(s[i])
  {
    if n < 16 then [HexChar(n)] else HexDigits(n / 16) + [HexChar(n % 16)]
  }

  /** `toHex` of a number. */
  function NumberToHex(n: nat, length: nat): string {
    "0x" + PadStart(HexDigits(n), length * 2)
  }

  /** The number hexadecimal digits denote. */
  function HexNumber(s: string): nat
    requires forall i :: 0 <= i < |s| ==> IsHex(s[i])
  {
    if s == "" then 0 else 16 * HexNumber(s[..|s| - 1]) + HexValue(s[|s| - 1])
  }

  lemma {:induction false} HexDigitsDenote(n: nat)
    ensures HexNumber(HexDigits(n)) == n
  {
    if n >= 16 {
      var r := HexDigits(n / 16);
      HexDigitsDenote(n / 16);
      assert HexDigits(n)[..|r|] == r;
    }
  }

  lemma {:induction false} LeadingZero(s: string)
    requires forall i :: 0 <= i < |s| ==> IsHex(s[i])
    ensures HexNumber("0" + s) == HexNumber(s)
  {
    if s == "" {
      assert ("0" + s)[..0] == "";
    } else {
      LeadingZero(s[..|s| - 1]);
      assert ("0" + s)[..|s|] == "0" + s[..|s| - 1];
    }
  }

  lemma {:induction false} PaddingKeepsNumber(s: string, n: nat)
    requires forall i :: 0 <= i < |s| ==> IsHex(s[i])
    ensures var p := PadStart(s, n);
            |p| >= n && (forall i :: 0 <= i < |p| ==> IsHex(p[i])) && HexNumber(p) == HexNumber(s)
    decreases n - |s|
  {
    if |s| < n {
      LeadingZero(s);
      PaddingKeepsNumber("0" + s, n);
    }
  }

  /** A printed number starts with 0x and denotes that number. */
  lemma ToHexDenotes(n: nat, length: nat)
    ensures var t := NumberToHex(n, length);
            && |t| >= 2 + 2 * length && t[..2] == "0x"
            && (forall i :: 0 <= i < |t| - 2 ==> IsHex(t[2..][i])) && HexNumber(t[2..]) == n
  {
    HexDigitsDenote(n);
    PaddingKeepsNumber(HexDigits(n), length * 2);
    assert NumberToHex(n, length)[2..] == PadStart(HexDigits(n), length * 2);
  }

  /** A deposit: its secrets, their preimage and its hashes; the Pedersen hash is a
      parameter. */
  datatype Deposit = Deposit(
    nullifier: nat, secret: nat, preimage: seq<byte>,
    commitment: nat, commitmentHex: string, nullifierHash: nat, nullifierHex: string)

  type Pedersen = seq<byte> -> nat

  function CreateDeposit(pedersen: Pedersen, nullifier: nat, secret: nat): Deposit {
    var preimage := LeBytes(nullifier, 31) + LeBytes(secret, 31);
    var commitment, nullifierHash := pedersen(preimage), pedersen(LeBytes(nullifier, 31));
    Deposit(nullifier, secret, preimage,
      commitment, NumberToHex(commitment, 32), nullifierHash, NumberToHex(nullifierHash, 32))
  }

  function PrintNote(currency: string, amount: string, netId: nat, deposit: Deposit): string {
    "tornado-" + currency + "-" + amount + "-" + Dec(netId) + "-" + ToHex(deposit.preimage, 62)
  }

  predicate IsWordChar(c: char) {
    'a' <= c <= 'z' || 'A' <= c <= 'Z' || '0' <= c <= '9' || c == '_'
  }

  predicate IsAmountChar(c: char) {
    IsDigit(c) || c == '.'
  }

  predicate AllIn(s: string, i: nat, j: nat, kind: char -> bool)
    requires i <= j <= |s|
  {
    forall k :: i <= k < j ==> kind(s[k])
  }

  predicate LiteralAt(s: string, i: nat, t: string) {
    i + |t| <= |s| && s[i..i + |t|] == t
  }

  predicate DashAt(s: string, i: nat) {
    i < |s| && s[i] == '-'
  }

  predicate HexMarkAt(s: string, i: nat) {
    i + 3 <= |s| && s[i] == '-' && s[i + 1] == '0' && s[i + 2] == 'x'
  }

  datatype Groups = Groups(currency: string, amount: string, netId: string, note: string)

  /** The note regular expression matches at `p`, its groups ending at b, c, d. */
  ghost predicate Matches(s: string, p: nat, b: nat, c: nat, d: nat) {
    && LiteralAt(s, p, "tornado-") && MatchesFrom(s, p + 8, b, c, d)
  }

  ghost predicate MatchesFrom(s: string, a: nat, b: nat, c: nat, d: nat) {
    && a < b && b + 1 < c && c + 1 < d && d + 127 <= |s|
    && AllIn(s, a, b, IsWordChar) && DashAt(s, b)
    && AllIn(s, b + 1, c, IsAmountChar) && DashAt(s, c)
    && AllIn(s, c + 1, d, IsDigit) && HexMarkAt(s, d)
    && AllIn(s, d + 3, d + 127, IsHex)
  }

  function GroupsOf(s: string, a: nat, b: nat, c: nat, d: nat): Groups
    requires a <= b && b + 1 <= c && c + 1 <= d && d + 127 <= |s|
  {
    Groups(s[a..b], s[b + 1..c], s[c + 1..d], s[d + 3..d + 127])
  }

  /** The end of the longest run of `kind` from `i`. */
  function Span(s: string, i: nat, kind: char -> bool): (j: nat)
    requires i <= |s|
    ensures i <= j <= |s| && AllIn(s, i, j, kind) && (j < |s| ==> !kind(s[j]))
    decreases |s| - i
  {
    if i < |s| && kind(s[i]) then Span(s, i + 1, kind) else i
  }

  /** Matching at `p`: every class excludes the dash that must follow it, so the
      longest run is the only one that can match. */
  function MatchAt(s: string, p: nat): Option<Groups> {
    if !LiteralAt(s, p, "tornado-") then None
    else
      var b := Span(s, p + 8, IsWordChar);
      if b == p + 8 || !DashAt(s, b) then None else MatchAmount(s, p + 8, b)
  }

  function MatchAmount(s: string, a: nat, b: nat): Option<Groups>
    requires a < b < |s|
  {
    var c := Span(s, b + 1, IsAmountChar);
    if c == b + 1 || !DashAt(s, c) then None else MatchNetId(s, a, b, c)
  }

  function MatchNetId(s: string, a: nat, b: nat, c: nat): Option<Groups>
    requires a < b && b + 1 < c < |s|
  {
    var d := Span(s, c + 1, IsDigit);
    if d == c + 1 || !HexMarkAt(s, d) || d + 127 > |s| || Span(s, d + 3, IsHex) < d + 127 then None
    else Some(GroupsOf(s, a, b, c, d))
  }

  lemma {:induction false} SpanIs(s: string, i: nat, j: nat, kind: char -> bool)
    requires i <= j < |s| && AllIn(s, i, j, kind) && !kind(s[j])
    ensures Span(s, i, kind) == j
    decreases j - i
  {
    if i < j { SpanIs(s, i + 1, j, kind); }
  }

  /** The matcher finds exactly the matches of the regular expression. */
  lemma MatchAtIsMatch(s: string, p: nat)
    ensures MatchAt(s, p).Some? <==> exists b, c, d :: Matches(s, p, b, c, d)
    ensures forall b, c, d :: Matches(s, p, b, c, d) ==> MatchAt(s, p) == Some(GroupsOf(s, p + 8, b, c, d))
  {
    forall b: nat, c: nat, d: nat | Matches(s, p, b, c, d) ensures MatchAt(s, p) == Some(GroupsOf(s, p + 8, b, c, d)) {
      MatchIsFound(s, p, b, c, d);
    }
    if MatchAt(s, p).Some? { FoundIsMatch(s, p); }
  }

  lemma MatchIsFound(s: string, p: nat, b: nat, c: nat, d: nat)
    requires Matches(s, p, b, c, d)
    ensures MatchAt(s, p) == Some(GroupsOf(s, p + 8, b, c, d))
  {
    SpanIs(s, p + 8, b, IsWordChar);
    AmountIsFound(s, p + 8, b, c, d);
  }

  lemma AmountIsFound(s: string, a: nat, b: nat, c: nat, d: nat)
    requires MatchesFrom(s, a, b, c, d)
    ensures MatchAmount(s, a, b) == Some(GroupsOf(s, a, b, c, d))
  {
    SpanIs(s, b + 1, c, IsAmountChar);
    NetIdIsFound(s, a, b, c, d);
  }

  lemma NetIdIsFound(s: string, a: nat, b: nat, c: nat, d: nat)
    requires MatchesFrom(s, a, b, c, d)
    ensures MatchNetId(s, a, b, c) == Some(GroupsOf(s, a, b, c, d))
  {
    SpanIs(s, c + 1, d, IsDigit);
    assert Span(s, d + 3, IsHex) >= d + 127;
  }

  lemma FoundIsMatch(s: string, p: nat)
    requires MatchAt(s, p).Some?
    ensures exists b, c, d :: Matches(s, p, b, c, d)
  {
    var b := Span(s, p + 8, IsWordChar);
    var c := Span(s, b + 1, IsAmountChar);
    var d := Span(s, c + 1, IsDigit);
    assert Matches(s, p, b, c, d);
  }

  /** `exec`: the match at the leftmost position that has one. */
  function Exec(s: string, p: nat): Option<Groups>
    requires p <= |s|
    decreases |s| - p
  {
    if MatchAt(s, p).Some? then MatchAt(s, p)
    else if p == |s| then None
    else Exec(s, p + 1)
  }

  datatype Parsed = Parsed(currency: string, amount: string, netId: nat, deposit: Deposit)

  /** What the pattern promises about its groups. */
  predicate Typed(g: Groups) {
    && g.currency != "" && AllIn(g.currency, 0, |g.currency|, IsWordChar)
    && g.amount != "" && AllIn(g.amount, 0, |g.amount|, IsAmountChar)
    && g.netId != "" && AllDigits(g.netId)
    && |g.note| == 124 && AllIn(g.note, 0, 124, IsHex)
  }

  lemma GroupsAreTyped(s: string, p: nat)
    requires MatchAt(s, p).Some?
    ensures Typed(MatchAt(s, p).value)
  {
    FoundIsMatch(s, p);
    var b: nat, c: nat, d: nat :| Matches(s, p, b, c, d);
    MatchIsFound(s, p, b, c, d);
    forall ch | ch in s[c + 1..d] ensures IsDigit(ch) {
      var i :| 0 <= i < d - (c + 1) && s[c + 1..d][i] == ch;
    }
  }

  lemma {:induction false} ExecIsTyped(s: string, p: nat)
    requires p <= |s| && Exec(s, p).Some?
    ensures Typed(Exec(s, p).value)
    decreases |s| - p
  {
    if MatchAt(s, p).Some? { GroupsAreTyped(s, p); } else { ExecIsTyped(s, p + 1); }
  }

  /** None stands for the error that the note has an invalid format. */
  function ParseNote(pedersen: Pedersen, s: string): Option<Parsed> {
    var m := Exec(s, 0);
    if m.None? then None
    else
      ExecIsTyped(s, 0);
      var bytes := HexToBytes(m.value.note);
      var deposit := CreateDeposit(pedersen, FromLe(bytes[..31]), FromLe(bytes[31..62]));
      Some(Parsed(m.value.currency, m.value.amount, Value(m.value.netId), deposit))
  }

  /** A string is refused exactly when the pattern occurs nowhere in it. */
  lemma {:induction false} ExecFails(s: string, p: nat)
    requires p <= |s|
    ensures Exec(s, p).None? <==> forall q, b, c, d :: p <= q ==> !Matches(s, q, b, c, d)
    decreases |s| - p
  {
    MatchAtIsMatch(s, p);
    if MatchAt(s, p).None? && p < |s| { ExecFails(s, p + 1); }
  }

  lemma ParseRefusesIff(pedersen: Pedersen, s: string)
    ensures ParseNote(pedersen, s).None? <==> forall q, b, c, d :: !Matches(s, q, b, c, d)
  {
    ExecFails(s, 0);
  }

  lemma PrintedMatches(currency: string, amount: string, netId: string, note: string)
    requires currency != "" && AllIn(currency, 0, |currency|, IsWordChar)
    requires amount != "" && AllIn(amount, 0, |amount|, IsAmountChar)
    requires netId != "" && AllDigits(netId)
    requires |note| == 124 && AllIn(note, 0, 124, IsHex)
    ensures var s := "tornado-" + currency + "-" + amount + "-" + netId + "-" + ("0x" + note);
            MatchAt(s, 0) == Some(Groups(currency, amount, netId, note))
  {
    var s1 := "tornado-" + currency;
    var s3 := s1 + "-" + amount;
    var s5 := s3 + "-" + netId;
    var s := s5 + "-" + ("0x" + note);
    HasPart(s5 + "-", "0x" + note, s);
    HasPart(s5, "-", s);
    NoteBehindMark(s, |s5|, note);
    HasPart(s3 + "-", netId, s);
    HasPart(s3, "-", s);
    HasPart(s1 + "-", amount, s);
    HasPart(s1, "-", s);
    HasPart("tornado-", currency, s);
    PartsMatch(s, |s1|, |s3|, |s5|, Groups(currency, amount, netId, note));
  }

  lemma PartsMatch(s: string, b: nat, c: nat, d: nat, g: Groups)
    requires Typed(g) && 8 < b && b + 1 < c && c + 1 < d && d + 127 <= |s|
    requires LiteralAt(s, 0, "tornado-") && DashAt(s, b) && DashAt(s, c) && HexMarkAt(s, d)
    requires s[8..b] == g.currency && s[b + 1..c] == g.amount && s[c + 1..d] == g.netId && s[d + 3..d + 127] == g.note
    ensures MatchAt(s, 0) == Some(g)
  {
    SliceIn(s, 8, b, g.currency, IsWordChar);
    SliceIn(s, b + 1, c, g.amount, IsAmountChar);
    SliceIn(s, c + 1, d, g.netId, IsDigit);
    SliceIn(s, d + 3, d + 127, g.note, IsHex);
    MatchIsFound(s, 0, b, c, d);
  }

  lemma HasPart(x: string, y: string, s: string)
    requires x + y <= s
    ensures x <= s && |x| + |y| <= |s| && s[|x|..|x| + |y|] == y && (y == "-" ==> DashAt(s, |x|))
  {
    assert s[..|x| + |y|] == x + y;
    assert s[|x|..|x| + |y|] == s[..|x| + |y|][|x|..];
  }

  lemma NoteBehindMark(s: string, d: nat, note: string)
    requires d + 3 + |note| <= |s| && DashAt(s, d) && s[d + 1..d + 3 + |note|] == "0x" + note
    ensures HexMarkAt(s, d) && s[d + 3..d + 3 + |note|] == note
  {
    var t := s[d + 1..d + 3 + |note|];
    assert t[0] == '0' && t[1] == 'x';
    assert t[2..] == note;
  }

  lemma SliceIn(s: string, i: nat, j: nat, t: string, kind: char -> bool)
    requires i <= j <= |s| && s[i..j] == t && AllIn(t, 0, |t|, kind)
    ensures AllIn(s, i, j, kind)
  {
    forall k | i <= k < j ensures kind(s[k]) { assert s[k] == t[k - i]; }
  }

  lemma HalvesRoundTrip(m: nat, n: nat, len: nat)
    requires m < Pow256(len) && n < Pow256(len)
    ensures var bytes := LeBytes(m, len) + LeBytes(n, len);
            FromLe(bytes[..len]) == m && FromLe(bytes[len..2 * len]) == n
  {
    var bytes := LeBytes(m, len) + LeBytes(n, len);
    assert bytes[..len] == LeBytes(m, len) && bytes[len..2 * len] == LeBytes(n, len);
    LeRoundTrip(m, len);
    LeRoundTrip(n, len);
  }

  /** Parsing a printed note gives back its fields and the same deposit. */
  lemma NoteRoundTrip(pedersen: Pedersen, currency: string, amount: string, netId: nat, nullifier: nat, secret: nat)
    requires currency != "" && AllIn(currency, 0, |currency|, IsWordChar)
    requires amount != "" && AllIn(amount, 0, |amount|, IsAmountChar)
    requires nullifier < Pow256(31) && secret < Pow256(31)
    ensures var deposit := CreateDeposit(pedersen, nullifier, secret);
            ParseNote(pedersen, PrintNote(currency, amount, netId, deposit)) ==
                Some(Parsed(currency, amount, netId, deposit))
  {
    var deposit := CreateDeposit(pedersen, nullifier, secret);
    var note := BytesToHex(deposit.preimage);
    assert ToHex(deposit.preimage, 62) == "0x" + note;
    PrintedMatches(currency, amount, Dec(netId), note);
    HexRoundTrip(deposit.preimage);
    HalvesRoundTrip(nullifier, secret, 31);
  }

  /** Whatever is parsed, the secrets fit their 31 bytes. */
  lemma ParsedSecretsFit(pedersen: Pedersen, s: string)
    requires ParseNote(pedersen, s).Some?
    ensures var d := ParseNote(pedersen, s).value.deposit; d.nullifier < Pow256(31) && d.secret < Pow256(31)
  {
    ExecIsTyped(s, 0);
    var bytes := HexToBytes(Exec(s, 0).value.note);
    HalvesFit(bytes, 31);
  }

  lemma HalvesFit(bytes: seq<byte>, len: nat)
    requires |bytes| == 2 * len
    ensures FromLe(bytes[..len]) < Pow256(len) && FromLe(bytes[len..2 * len]) < Pow256(len)
  {
    LeBounded(bytes[..len]);
    LeBounded(bytes[len..2 * len]);
  }

  /** Every accepted string, whatever surrounds its note and however its digits are
      written, parses to fields whose printed note parses to the same fields. */
  lemma ParsedReprints(pedersen: Pedersen, s: string)
    requires ParseNote(pedersen, s).Some?
    ensures var p := ParseNote(pedersen, s).value;
            ParseNote(pedersen, PrintNote(p.currency, p.amount, p.netId, p.deposit)) == Some(p)
  {
    var p := ParseNote(pedersen, s).value;
    ExecIsTyped(s, 0);
    ParsedSecretsFit(pedersen, s);
    NoteRoundTrip(pedersen, p.currency, p.amount, p.netId, p.deposit.nullifier, p.deposit.secret);
  }

  // ----- What a deposit is -----

  /** `t` is 0x and at least 64 hexadecimal digits denoting `n`. */
  ghost predicate IsHexOf(t: string, n: nat) {
    && |t| >= 66 && t[..2] == "0x" && (forall i :: 0 <= i < |t| - 2 ==> IsHex(t[2..][i]))
    && HexNumber(t[2..]) == n
  }

  /** The commitment is the hash of all 62 bytes, nullifier first, and the nullifier hash
      that of the first 31 alone. */
  ghost predicate IsDeposit(pedersen: Pedersen, d: Deposit) {
    && |d.preimage| == 62
    && FromLe(d.preimage[..31]) == d.nullifier && FromLe(d.preimage[31..]) == d.secret
    && d.commitment == pedersen(d.preimage) && d.nullifierHash == pedersen(d.preimage[..31])
    && IsHexOf(d.commitmentHex, d.commitment) && IsHexOf(d.nullifierHex, d.nullifierHash)
  }

  /** Every deposit created from secrets of 31 bytes is one. */
  lemma CreatedIsDeposit(pedersen: Pedersen, nullifier: nat, secret: nat)
    requires nullifier < Pow256(31) && secret < Pow256(31)
    ensures var d := CreateDeposit(pedersen, nullifier, secret);
            d.nullifier == nullifier && d.secret == secret && IsDeposit(pedersen, d)
  {
    var d := CreateDeposit(pedersen, nullifier, secret);
    HalvesRoundTrip(nullifier, secret, 31);
    PreimageHalves(nullifier, secret);
    HexIsHexOf(d.commitment);
    HexIsHexOf(d.nullifierHash);
  }

  lemma PreimageHalves(nullifier: nat, secret: nat)
    ensures var bytes := LeBytes(nullifier, 31) + LeBytes(secret, 31);
            |bytes| == 62 && bytes[..31] == LeBytes(nullifier, 31) && bytes[31..] == bytes[31..2 * 31]
  {
  }

  lemma HexIsHexOf(n: nat)
    ensures IsHexOf(NumberToHex(n, 32), n)
  {
    ToHexDenotes(n, 32);
  }

  /** The same nullifier gives the same nullifier hash, whatever the secrets. */
  lemma NullifierHashIsOfNullifier(pedersen: Pedersen, d: Deposit, e: Deposit)
    requires IsDeposit(pedersen, d) && IsDeposit(pedersen, e) && d.nullifier == e.nullifier
    ensures d.nullifierHash == e.nullifierHash && HexNumber(d.nullifierHex[2..]) == HexNumber(e.nullifierHex[2..])
  {
    LeBytesOfRead(d.preimage[..31]);
    LeBytesOfRead(e.preimage[..31]);
  }

  /** The fields of the match with groups ending at `b`, `c` and `d`. */
  ghost predicate ReadsMatch(s: string, p: nat, b: nat, c: nat, d: nat, r: Parsed) {
    && Matches(s, p, b, c, d)
    && r.currency == s[p + 8..b] && r.amount == s[b + 1..c] && AllDigits(s[c + 1..d]) && r.netId == Value(s[c + 1..d])
    && BytesOf(r.deposit.preimage, s[d + 3..d + 127])
  }

  /** Two hexadecimal digits of either case for every byte, the higher half first. */
  ghost predicate BytesOf(bytes: seq<byte>, hex: string) {
    && |hex| == 2 * |bytes|
    && forall i :: 0 <= i < |bytes| ==>
         && IsHex(hex[2 * i]) && IsHex(hex[2 * i + 1])
         && bytes[i] == 16 * HexValue(hex[2 * i]) + HexValue(hex[2 * i + 1])
  }

  /** Parsing reads the leftmost match of the pattern, and makes a deposit of its bytes. */
  lemma ParsedIsLeftmost(pedersen: Pedersen, s: string)
    requires ParseNote(pedersen, s).Some?
    ensures var r := ParseNote(pedersen, s).value;
            && IsDeposit(pedersen, r.deposit)
            && exists p, b, c, d :: ReadsMatch(s, p, b, c, d, r) && NoMatchBefore(s, p)
  {
    var p := ExecIsLeftmost(s, 0);
    FoundIsMatch(s, p);
    var b: nat, c: nat, d: nat :| Matches(s, p, b, c, d);
    MatchIsFound(s, p, b, c, d);
    GroupsAreTyped(s, p);
    ParsedReadsMatch(pedersen, s, p, b, c, d);
    var r := ParseNote(pedersen, s).value;
    ParsedSecretsFit(pedersen, s);
    CreatedIsDeposit(pedersen, r.deposit.nullifier, r.deposit.secret);
  }

  lemma ParsedReadsMatch(pedersen: Pedersen, s: string, p: nat, b: nat, c: nat, d: nat)
    requires Matches(s, p, b, c, d) && Exec(s, 0) == Some(GroupsOf(s, p + 8, b, c, d))
    requires Typed(GroupsOf(s, p + 8, b, c, d))
    ensures ParseNote(pedersen, s).Some? && ReadsMatch(s, p, b, c, d, ParseNote(pedersen, s).value)
  {
    var note := s[d + 3..d + 127];
    HalvesAreBytes(HexToBytes(note));
    ReadBytes(note);
  }

  ghost predicate NoMatchBefore(s: string, p: nat) {
    forall q: nat, b: nat, c: nat, d: nat :: q < p ==> !Matches(s, q, b, c, d)
  }

  lemma {:induction false} ExecIsLeftmost(s: string, p: nat) returns (q: nat)
    requires p <= |s| && Exec(s, p).Some?
    requires NoMatchBefore(s, p)
    ensures MatchAt(s, q) == Exec(s, p) && NoMatchBefore(s, q)
    decreases |s| - p
  {
    MatchAtIsMatch(s, p);
    q := p;
    if MatchAt(s, p).None? { q := ExecIsLeftmost(s, p + 1); }
  }

  lemma HalvesAreBytes(bytes: seq<byte>)
    requires |bytes| == 62
    ensures LeBytes(FromLe(bytes[..31]), 31) + LeBytes(FromLe(bytes[31..62]), 31) == bytes
  {
    LeBytesOfRead(bytes[..31]);
    LeBytesOfRead(bytes[31..62]);
  }

  lemma {:induction false} HexToBytesAt(hex: string, i: nat)
    requires |hex| % 2 == 0 && i < |hex| / 2 && forall j :: 0 <= j < |hex| ==> IsHex(hex[j])
    ensures HexToBytes(hex)[i] == 16 * HexValue(hex[2 * i]) + HexValue(hex[2 * i + 1])
  {
    if i == 0 {
    } else {
      var rest, k := hex[2..], i - 1;
      HexToBytesAt(rest, k);
      assert rest[2 * k] == hex[2 * k + 2] && rest[2 * k + 1] == hex[2 * k + 3];
    }
  }

  lemma ReadBytes(hex: string)
    requires |hex| % 2 == 0 && forall i :: 0 <= i < |hex| ==> IsHex(hex[i])
    ensures BytesOf(HexToBytes(hex), hex)
  {
    forall i | 0 <= i < |hex| / 2
      ensures HexToBytes(hex)[i] == 16 * HexValue(hex[2 * i]) + HexValue(hex[2 * i + 1])
    {
      HexToBytesAt(hex, i);
    }
  }

  /** A printed note is one match of the pattern from its first character to its last, with
      the fields it was printed from. */
  lemma PrintedIsMatch(pedersen: Pedersen, currency: string, amount: string, netId: nat, nullifier: nat, secret: nat)
    requires currency != "" && AllIn(currency, 0, |currency|, IsWordChar)
    requires amount != "" && AllIn(amount, 0, |amount|, IsAmountChar)
    requires nullifier < Pow256(31) && secret < Pow256(31)
    ensures var deposit := CreateDeposit(pedersen, nullifier, secret);
            var s := PrintNote(currency, amount, netId, deposit);
            exists b, c, d :: |s| == d + 127 && ReadsMatch(s, 0, b, c, d, Parsed(currency, amount, netId, deposit))
  {
    var deposit := CreateDeposit(pedersen, nullifier, secret);
    var s := PrintNote(currency, amount, netId, deposit);
    NoteRoundTrip(pedersen, currency, amount, netId, nullifier, secret);
    PrintedMatches(currency, amount, Dec(netId), BytesToHex(deposit.preimage));
    assert ToHex(deposit.preimage, 62) == "0x" + BytesToHex(deposit.preimage);
    WholeIsMatch(pedersen, s, Groups(currency, amount, Dec(netId), BytesToHex(deposit.preimage)),
                 Parsed(currency, amount, netId, deposit));
  }

  lemma WholeIsMatch(pedersen: Pedersen, s: string, g: Groups, r: Parsed)
    requires MatchAt(s, 0) == Some(g) && ParseNote(pedersen, s) == Some(r)
    requires |s| == 8 + |g.currency| + 1 + |g.amount| + 1 + |g.netId| + 127
    ensures exists b, c, d :: |s| == d + 127 && ReadsMatch(s, 0, b, c, d, r)
  {
    var b, c, d := MatchOf(s, g);
    FirstIsParsed(pedersen, s, g, r, b, c, d);
  }

  lemma FirstIsParsed(pedersen: Pedersen, s: string, g: Groups, r: Parsed, b: nat, c: nat, d: nat)
    requires MatchAt(s, 0) == Some(g) && ParseNote(pedersen, s) == Some(r)
    requires Matches(s, 0, b, c, d) && GroupsOf(s, 8, b, c, d) == g && Typed(g)
    ensures ReadsMatch(s, 0, b, c, d, r)
  {
    ParsedReadsMatch(pedersen, s, 0, b, c, d);
  }

  lemma MatchOf(s: string, g: Groups) returns (b: nat, c: nat, d: nat)
    requires MatchAt(s, 0) == Some(g)
    ensures Matches(s, 0, b, c, d) && GroupsOf(s, 8, b, c, d) == g && Typed(g)
    ensures d == 8 + |g.currency| + 1 + |g.amount| + 1 + |g.netId|
  {
    FoundIsMatch(s, 0);
    b, c, d :| Matches(s, 0, b, c, d);
    MatchIsFound(s, 0, b, c, d);
    GroupsAreTyped(s, 0);
  }
}

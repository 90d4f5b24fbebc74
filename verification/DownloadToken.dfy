/**
  Signed download tokens (`_generate_signed_token` and `verify_download_token` in
  src/enterprise/mail_proxy/attachments/large_file_storage.py): file id, expiry and signature,
  joined by dashes, taken apart from the right.  The signature is any function to dash-free
  ASCII strings, as sixteen hexadecimal digits are.
 */
module DownloadToken {
  import opened Options

  type Signer = string -> string

  /** A non-ASCII signature makes the digest comparison raise. */
  datatype Verdict = Accepted(fileId: string) | Refused | Raised

  // ---------------------------------------------------------------- decimal numbers

  function DigitChar(d: nat): (c: char)
    requires d < 10
    ensures '0' <= c <= '9'
  {
    '0' + d as char
  }

  predicate IsDigit(c: char) {
    '0' <= c <= '9'
  }

  function DigitValue(c: char): nat
    requires IsDigit(c)
  {
    (c - '0') as nat
  }

  function Digits(n: nat): (s: string)
    ensures s != [] && forall i :: 0 <= i < |s| ==> IsDigit(s[i])
  {
    if n < 10 then [DigitChar(n)] else Digits(n / 10) + [DigitChar(n % 10)]
  }

  /** `str` of an integer. */
  function Str(n: int): string {
    if n < 0 then "-" + Digits(-n) else Digits(n)
  }

  /** Digits, with single underscores allowed between them. */
  function ParseDigits(s: string): Option<nat> {
    if s == [] || !IsDigit(s[|s| - 1]) then None
    else
      var d := DigitValue(s[|s| - 1]);
      var init := s[..|s| - 1];
      if init == [] then Some(d)
      else
        var more := ParseDigits(if init[|init| - 1] == '_' then init[..|init| - 1] else init);
        if more.Some? then Some(10 * more.value + d) else None
  }

  predicate IsSpace(c: char) {
    c == ' ' || '\t' <= c <= '\r' || 28 as char <= c <= 31 as char
  }

  function StripLeft(s: string): string {
    if s != [] && IsSpace(s[0]) then StripLeft(s[1..]) else s
  }

  function StripRight(s: string): string {
    if s != [] && IsSpace(s[|s| - 1]) then StripRight(s[..|s| - 1]) else s
  }

  /** `int` of a string: surrounding white space and one sign are accepted. */
  function ParseInt(s: string): Option<int> {
    var t := StripRight(StripLeft(s));
    var signed := t != [] && (t[0] == '-' || t[0] == '+');
    match ParseDigits(if signed then t[1..] else t)
    case None => None
    case Some(n) =>
      var value: int := if signed && t[0] == '-' then 0 - n else n;
      Some(value)
  }

  predicate AllBlank(s: string) {
    forall i :: 0 <= i < |s| ==> s[i] == ' ' || 9 <= s[i] as int <= 13 || 28 <= s[i] as int <= 31
  }

  predicate AllDigits(s: string) {
    forall i :: 0 <= i < |s| ==> '0' <= s[i] <= '9'
  }

  /** White space around a number is ignored: blank, tab to carriage return, and the four separators. */
  lemma PaddedParses(before: string, s: string, after: string)
    requires AllBlank(before) && AllBlank(after)
    requires s != [] && '!' <= s[0] && '!' <= s[|s| - 1]
    ensures ParseInt(before + s + after) == ParseInt(s)
  {
    StripLeftPadding(before, s + after);
    assert before + (s + after) == before + s + after;
    assert StripLeft(s + after) == s + after;
    StripRightPadding(s, after);
    assert StripLeft(s) == s && StripRight(s) == s;
  }

  lemma {:induction false} StripLeftPadding(before: string, s: string)
    requires AllBlank(before)
    ensures StripLeft(before + s) == StripLeft(s)
  {
    if before == [] {
      assert before + s == s;
    } else {
      assert (before + s)[1..] == before[1..] + s;
      StripLeftPadding(before[1..], s);
    }
  }

  lemma {:induction false} StripRightPadding(s: string, after: string)
    requires AllBlank(after)
    ensures StripRight(s + after) == StripRight(s)
  {
    if after == [] {
      assert s + after == s;
    } else {
      var n := |after| - 1;
      assert (s + after)[..|s + after| - 1] == s + after[..n];
      StripRightPadding(s, after[..n]);
    }
  }

  /** A number may have one plus sign, and single underscores between its digits; two of them make it none. */
  lemma SignsAndUnderscores(a: string, b: string)
    requires a != [] && b != [] && AllDigits(a) && AllDigits(b)
    ensures ParseInt("+" + a) == ParseInt(a) && ParseInt(a).Some?
    ensures ParseInt(a + "_" + b) == ParseInt(a + b) && ParseInt(a + "__" + b) == None
  {
    Unstripped(a);
    Unstripped("+" + a);
    Unstripped(a + b);
    Unstripped(a + "_" + b);
    Unstripped(a + "__" + b);
    assert ("+" + a)[1..] == a;
    DigitsParse(a);
    UnderscoreDrops(a, b);
    TwoUnderscores(a, b);
  }

  lemma Unstripped(s: string)
    requires s != [] && '!' <= s[0] && '!' <= s[|s| - 1]
    ensures StripRight(StripLeft(s)) == s
  {
  }

  lemma {:induction false} DigitsParse(s: string)
    requires s != [] && AllDigits(s)
    ensures ParseDigits(s).Some?
  {
    var init := s[..|s| - 1];
    if init != [] {
      DigitsParse(init);
    }
  }

  function Trimmed(s: string): string {
    if s != [] && s[|s| - 1] == '_' then s[..|s| - 1] else s
  }

  /** What stands before the last digit matters only by its value, without an underscore at its end. */
  lemma SameValueSnoc(x: string, y: string, d: char)
    requires x != [] && y != [] && IsDigit(d) && ParseDigits(Trimmed(x)) == ParseDigits(Trimmed(y))
    ensures ParseDigits(x + [d]) == ParseDigits(y + [d])
  {
    assert (x + [d])[..|x + [d]| - 1] == x && (y + [d])[..|y + [d]| - 1] == y;
  }

  lemma {:induction false} UnderscoreDrops(a: string, b: string)
    requires a != [] && b != [] && AllDigits(a) && AllDigits(b)
    ensures ParseDigits(a + "_" + b) == ParseDigits(a + b)
  {
    var front, last := b[..|b| - 1], b[|b| - 1];
    var x, y := a + "_" + front, a + front;
    TrimmedSame(a, front);
    if front == [] {
      assert y == a;
    } else {
      UnderscoreDrops(a, front);
    }
    SameValueSnoc(x, y, last);
    LastApart(a, b);
  }

  lemma TrimmedSame(a: string, front: string)
    requires a != [] && AllDigits(a) && AllDigits(front)
    ensures Trimmed(a + "_" + front) == if front == [] then a else a + "_" + front
    ensures Trimmed(a + front) == a + front
  {
    assert a + front == if front == [] then a else a + front;
    if front == [] {
      assert (a + "_" + front)[..|a|] == a;
    }
  }

  lemma LastApart(a: string, b: string)
    requires b != []
    ensures a + "_" + b == (a + "_" + b[..|b| - 1]) + [b[|b| - 1]] && a + b == (a + b[..|b| - 1]) + [b[|b| - 1]]
  {
  }

  lemma {:induction false} TwoUnderscores(a: string, b: string)
    requires a != [] && b != [] && AllDigits(b)
    ensures ParseDigits(a + "__" + b) == None
  {
    var n := |b| - 1;
    var joined := a + "__" + b;
    assert joined[|joined| - 1] == b[n];
    if n == 0 {
      assert joined[..|joined| - 1] == a + "__" && (a + "__")[..|a + "__"| - 1] == a + "_";
    } else {
      assert joined[..|joined| - 1] == a + "__" + b[..n];
      TwoUnderscores(a, b[..n]);
    }
  }

  // ---------------------------------------------------------------- splitting from the right

  predicate NoDash(s: string) {
    forall i :: 0 <= i < |s| ==> s[i] != '-'
  }

  function LastDash(s: string): (at: Option<nat>)
    ensures at.Some? ==> at.value < |s| && s[at.value] == '-' && NoDash(s[at.value + 1..])
    ensures at.None? ==> NoDash(s)
  {
    if s == [] then None
    else if s[|s| - 1] == '-' then Some(|s| - 1)
    else
      var at := LastDash(s[..|s| - 1]);
      assert at.Some? ==> s[at.value + 1..] == s[..|s| - 1][at.value + 1..] + [s[|s| - 1]];
      at
  }

  /** `rsplit("-", n)`. */
  function RSplit(s: string, n: nat): seq<string> {
    if n == 0 || LastDash(s).None? then [s]
    else
      var at := LastDash(s).value;
      RSplit(s[..at], n - 1) + [s[at + 1..]]
  }

  // ---------------------------------------------------------------- tokens

  function Message(fileId: string, filename: string, expiresAt: int): string {
    fileId + ":" + filename + ":" + Str(expiresAt)
  }

  function Token(sign: Signer, fileId: string, filename: string, expiresAt: int): string {
    fileId + "-" + Str(expiresAt) + "-" + sign(Message(fileId, filename, expiresAt))
  }

  /** `int` of a time. */
  function Truncated(t: real): int {
    if t >= 0.0 then t.Floor else -((-t).Floor)
  }

  function Generate(sign: Signer, fileId: string, filename: string, now: real, expiresIn: int): string {
    Token(sign, fileId, filename, Truncated(now) + expiresIn)
  }

  predicate Ascii(s: string) {
    forall i :: 0 <= i < |s| ==> s[i] < 128 as char
  }

  function Verify(sign: Signer, token: string, filename: string, now: real): Verdict {
    var parts := RSplit(token, 2);
    if |parts| != 3 then Refused
    else
      var expiresAt := ParseInt(parts[1]);
      if expiresAt.None? then Refused
      else if now > expiresAt.value as real then Refused
      else if !Ascii(parts[2]) then Raised
      else if parts[2] != sign(Message(parts[0], filename, expiresAt.value)) then Refused
      else Accepted(parts[0])
  }

  // ---------------------------------------------------------------- printing and parsing undo each other

  lemma {:induction false} ParsePrintedDigits(n: nat)
    ensures ParseDigits(Digits(n)) == Some(n)
  {
    if n >= 10 {
      ParsePrintedDigits(n / 10);
      var s := Digits(n);
      assert s[..|s| - 1] == Digits(n / 10);
      assert s[|s| - 1] == DigitChar(n % 10);
    }
  }

  lemma NothingToStrip(s: string)
    requires s != [] && !IsSpace(s[0]) && !IsSpace(s[|s| - 1])
    ensures StripRight(StripLeft(s)) == s
  {
  }

  /** `int(str(n)) == n`. */
  lemma ParsePrinted(n: int)
    ensures ParseInt(Str(n)) == Some(n)
  {
    NothingToStrip(Str(n));
    if n < 0 {
      ParsePrintedDigits(-n);
      assert Str(n)[1..] == Digits(-n);
    } else {
      ParsePrintedDigits(n);
    }
  }

  lemma DashesOfStr(n: int)
    ensures n >= 0 ==> NoDash(Str(n))
    ensures n < 0 ==> Str(n) == "-" + Str(-n) && NoDash(Str(-n))
  {
  }

  // ---------------------------------------------------------------- the split

  lemma {:induction false} LastDashUnique(a: string, b: string)
    requires NoDash(b)
    ensures LastDash(a + "-" + b) == Some(|a|)
  {
    var s := a + "-" + b;
    if b == [] {
      assert s[|s| - 1] == '-';
    } else {
      var n := |b| - 1;
      assert s[..|s| - 1] == a + "-" + b[..n];
      assert s[|s| - 1] == b[n];
      LastDashUnique(a, b[..n]);
    }
  }

  lemma SplitOff(a: string, b: string, n: nat)
    requires NoDash(b)
    ensures RSplit(a + "-" + b, n + 1) == RSplit(a, n) + [b]
  {
    LastDashUnique(a, b);
    assert (a + "-" + b)[..|a|] == a;
    assert (a + "-" + b)[|a| + 1..] == b;
  }

  lemma SplitThree(a: string, b: string, c: string)
    requires NoDash(b) && NoDash(c)
    ensures RSplit(a + "-" + b + "-" + c, 2) == [a, b, c]
  {
    SplitOff(a + "-" + b, c, 1);
    SplitOff(a, b, 0);
  }

  /** Three parts mean one token: the last two are free of dashes, and joining gives it back. */
  lemma SplitJoins(s: string)
    requires |RSplit(s, 2)| == 3
    ensures var p := RSplit(s, 2);
            s == p[0] + "-" + p[1] + "-" + p[2] && NoDash(p[1]) && NoDash(p[2])
  {
    var at := LastDash(s).value;
    var init := s[..at];
    assert RSplit(s, 2) == RSplit(init, 1) + [s[at + 1..]];
    assert |RSplit(init, 1)| == 2;
    var on := LastDash(init).value;
    assert RSplit(init, 1) == RSplit(init[..on], 0) + [init[on + 1..]];
    assert init == init[..on] + "-" + init[on + 1..];
    assert s == init + "-" + s[at + 1..];
  }

  // ---------------------------------------------------------------- the main results

  ghost predicate PlainSignatures(sign: Signer) {
    forall m: string :: NoDash(sign(m)) && Ascii(sign(m))
  }

  /** The whole seconds of a time: rounded down if it is positive, up if it is negative. */
  predicate WholeSeconds(t: real, n: int) {
    && (t >= 0.0 ==> n as real <= t < (n + 1) as real)
    && (t < 0.0 ==> (n - 1) as real < t <= n as real)
  }

  lemma TruncatedIsWhole(t: real, n: int)
    ensures WholeSeconds(t, n) <==> Truncated(t) == n
  {
  }

  /**
    Verifying a generated token gives back its file id exactly when the expiry, the whole second of
    issue plus the lifetime, is not negative and not past; file ids may contain dashes.
   */
  lemma VerifyGeneratedIff(sign: Signer, fileId: string, filename: string, issued: real, expiresIn: int, now: real,
                           second: int)
    requires PlainSignatures(sign) && WholeSeconds(issued, second)
    ensures Verify(sign, Generate(sign, fileId, filename, issued, expiresIn), filename, now) == Accepted(fileId) <==>
              second + expiresIn >= 0 && now <= (second + expiresIn) as real
  {
    GeneratedIs(sign, fileId, filename, issued, expiresIn, second);
    TokenUnderName(sign, fileId, filename, filename, second + expiresIn, now);
  }

  lemma GeneratedIs(sign: Signer, fileId: string, filename: string, issued: real, expiresIn: int, second: int)
    requires WholeSeconds(issued, second)
    ensures Generate(sign, fileId, filename, issued, expiresIn) == Token(sign, fileId, filename, second + expiresIn)
  {
    TruncatedIsWhole(issued, second);
  }

  lemma TokenUnderName(sign: Signer, fileId: string, filename: string, other: string, expiresAt: int, now: real)
    requires PlainSignatures(sign)
    ensures Verify(sign, Token(sign, fileId, filename, expiresAt), other, now) == Accepted(fileId) <==>
              && expiresAt >= 0 && now <= expiresAt as real
              && sign(Message(fileId, other, expiresAt)) == sign(Message(fileId, filename, expiresAt))
  {
    if expiresAt >= 0 {
      VerifyToken(sign, fileId, filename, other, expiresAt, now);
    } else {
      NegativeExpiryRefused(sign, fileId, filename, other, expiresAt, now);
    }
  }

  /** What verifying a token under any filename answers. */
  lemma VerifyToken(sign: Signer, fileId: string, filename: string, other: string, expiresAt: nat, now: real)
    requires PlainSignatures(sign)
    ensures Verify(sign, Token(sign, fileId, filename, expiresAt), other, now)
         == if now <= expiresAt as real
               && sign(Message(fileId, other, expiresAt)) == sign(Message(fileId, filename, expiresAt))
            then Accepted(fileId) else Refused
  {
    assert Ascii(sign(Message(fileId, filename, expiresAt)));
    TokenParts(sign, fileId, filename, expiresAt);
    ParsePrinted(expiresAt);
  }

  lemma TokenParts(sign: Signer, fileId: string, filename: string, expiresAt: nat)
    requires PlainSignatures(sign)
    ensures RSplit(Token(sign, fileId, filename, expiresAt), 2)
         == [fileId, Str(expiresAt), sign(Message(fileId, filename, expiresAt))]
  {
    DashesOfStr(expiresAt);
    SplitThree(fileId, Str(expiresAt), sign(Message(fileId, filename, expiresAt)));
  }

  /** The minus sign of a negative expiry is read as part of the file id. */
  lemma NegativeExpiryParts(sign: Signer, fileId: string, filename: string, expiresAt: int)
    requires PlainSignatures(sign) && expiresAt < 0
    ensures RSplit(Token(sign, fileId, filename, expiresAt), 2)
         == [fileId + "-", Str(-expiresAt), sign(Message(fileId, filename, expiresAt))]
  {
    DashesOfStr(expiresAt);
    assert fileId + "-" + Str(expiresAt) == (fileId + "-") + "-" + Str(-expiresAt);
    SplitThree(fileId + "-", Str(-expiresAt), sign(Message(fileId, filename, expiresAt)));
  }

  lemma NegativeExpiryRefused(sign: Signer, fileId: string, filename: string, other: string, expiresAt: int, now: real)
    requires PlainSignatures(sign) && expiresAt < 0
    ensures Verify(sign, Token(sign, fileId, filename, expiresAt), other, now) != Accepted(fileId)
  {
    NegativeExpiryParts(sign, fileId, filename, expiresAt);
    assert |fileId + "-"| != |fileId|;
  }

  /** A token is accepted exactly when it has this form, for whatever printed form of the expiry. */
  lemma AcceptedIff(sign: Signer, token: string, filename: string, now: real, fileId: string)
    requires PlainSignatures(sign)
    ensures Verify(sign, token, filename, now) == Accepted(fileId) <==>
              exists digits: string, expiresAt: int ::
                && NoDash(digits) && ParseInt(digits) == Some(expiresAt)
                && now <= expiresAt as real
                && token == fileId + "-" + digits + "-" + sign(Message(fileId, filename, expiresAt))
  {
    if Verify(sign, token, filename, now) == Accepted(fileId) {
      SplitJoins(token);
      var p := RSplit(token, 2);
      assert NoDash(p[1]) && ParseInt(p[1]) == Some(ParseInt(p[1]).value);
    }
    if digits: string, expiresAt: int :|
      && NoDash(digits) && ParseInt(digits) == Some(expiresAt)
      && now <= expiresAt as real
      && token == fileId + "-" + digits + "-" + sign(Message(fileId, filename, expiresAt))
    {
      SplitThree(fileId, digits, sign(Message(fileId, filename, expiresAt)));
    }
  }

  /** A verification raises exactly when the token has this form and is not expired, but its signature is not ASCII. */
  lemma RaisesIff(sign: Signer, token: string, filename: string, now: real)
    ensures Verify(sign, token, filename, now) == Raised <==>
              exists fileId: string, digits: string, expiresAt: int, signature: string ::
                && NoDash(digits) && ParseInt(digits) == Some(expiresAt) && now <= expiresAt as real
                && NoDash(signature) && (exists i :: 0 <= i < |signature| && signature[i] >= 128 as char)
                && token == fileId + "-" + digits + "-" + signature
  {
    if Verify(sign, token, filename, now) == Raised {
      SplitJoins(token);
      var p := RSplit(token, 2);
      assert NoDash(p[1]) && ParseInt(p[1]) == Some(ParseInt(p[1]).value);
      assert NoDash(p[2]) && !Ascii(p[2]);
    }
    if fileId: string, digits: string, expiresAt: int, signature: string :|
      && NoDash(digits) && ParseInt(digits) == Some(expiresAt) && now <= expiresAt as real
      && NoDash(signature) && (exists i :: 0 <= i < |signature| && signature[i] >= 128 as char)
      && token == fileId + "-" + digits + "-" + signature
    {
      SplitThree(fileId, digits, signature);
      assert !Ascii(signature);
    }
  }

  // ---------------------------------------------------------------- what a signature stands for

  predicate NoColon(s: string) {
    forall i :: 0 <= i < |s| ==> s[i] != ':'
  }

  lemma {:induction false} LastColonSplits(x: string, p: string, y: string, q: string)
    requires NoColon(p) && NoColon(q) && x + ":" + p == y + ":" + q
    ensures x == y && p == q
    decreases |p|
  {
    var s, t := x + ":" + p, y + ":" + q;
    assert s[|s| - 1] == (if p == "" then ':' else p[|p| - 1]) && t[|t| - 1] == (if q == "" then ':' else q[|q| - 1]);
    if p != "" && q != "" {
      var p', q' := p[..|p| - 1], q[..|q| - 1];
      assert s[..|s| - 1] == x + ":" + p' && t[..|t| - 1] == y + ":" + q';
      LastColonSplits(x, p', y, q');
      assert p == p' + [p[|p| - 1]] && q == q' + [q[|q| - 1]];
    } else {
      assert s[..|s| - 1] == x + p && t[..|t| - 1] == y + q;
      assert x + p == x && y + q == y;
    }
  }

  lemma {:induction false} FirstColonSplits(x: string, p: string, y: string, q: string)
    requires NoColon(x) && NoColon(y) && x + ":" + p == y + ":" + q
    ensures x == y && p == q
    decreases |x|
  {
    var s, t := x + ":" + p, y + ":" + q;
    assert s[0] == (if x == "" then ':' else x[0]) && t[0] == (if y == "" then ':' else y[0]);
    if x != "" && y != "" {
      assert s[1..] == x[1..] + ":" + p && t[1..] == y[1..] + ":" + q;
      FirstColonSplits(x[1..], p, y[1..], q);
      assert x == [x[0]] + x[1..] && y == [y[0]] + y[1..];
    } else {
      assert s[1..] == p && t[1..] == q;
    }
  }

  /**
    Two uploads are signed alike exactly when expiries agree and file id and filename agree when
    joined by a colon; for file ids without colons, exactly when all three agree.
   */
  lemma SameMessageIff(f: string, n: string, e: int, f': string, n': string, e': int)
    ensures Message(f, n, e) == Message(f', n', e') <==> e == e' && f + ":" + n == f' + ":" + n'
    ensures NoColon(f) && NoColon(f') ==> (Message(f, n, e) == Message(f', n', e') <==> f == f' && n == n' && e == e')
  {
    if Message(f, n, e) == Message(f', n', e') {
      StrNoColon(e);
      StrNoColon(e');
      LastColonSplits(f + ":" + n, Str(e), f' + ":" + n', Str(e'));
      ParsePrinted(e);
      ParsePrinted(e');
    }
    if NoColon(f) && NoColon(f') && f + ":" + n == f' + ":" + n' {
      FirstColonSplits(f, n, f', n');
    }
  }

  lemma StrNoColon(n: int)
    ensures NoColon(Str(n))
  {
  }

  /** With colons in file ids the two parts can shift, and different uploads share a signature. */
  lemma ShiftedPartsShareSignature(sign: Signer, a: string, b: string, c: string, e: int)
    ensures sign(Message(a, b + ":" + c, e)) == sign(Message(a + ":" + b, c, e))
  {
    assert a + ":" + (b + ":" + c) == (a + ":" + b) + ":" + c;
    SameMessageIff(a, b + ":" + c, e, a + ":" + b, c, e);
  }

  /**
    A generated token gives its file id under a filename exactly when that is signed like the one
    it was generated for and the expiry is neither negative nor past.  If no two messages share a
    signature, that is exactly when the filenames are the same.
   */
  lemma VerifyUnderNameIff(sign: Signer, fileId: string, filename: string, other: string, issued: real,
                           expiresIn: int, now: real, second: int)
    requires PlainSignatures(sign) && WholeSeconds(issued, second)
    ensures var expiresAt := second + expiresIn;
            Verify(sign, Generate(sign, fileId, filename, issued, expiresIn), other, now) == Accepted(fileId) <==>
              && expiresAt >= 0 && now <= expiresAt as real
              && sign(Message(fileId, other, expiresAt)) == sign(Message(fileId, filename, expiresAt))
    ensures (forall m, m' :: sign(m) == sign(m') ==> m == m') ==>
              var expiresAt := second + expiresIn;
              sign(Message(fileId, other, expiresAt)) == sign(Message(fileId, filename, expiresAt)) <==>
                other == filename
  {
    var expiresAt := second + expiresIn;
    GeneratedIs(sign, fileId, filename, issued, expiresIn, second);
    TokenUnderName(sign, fileId, filename, other, expiresAt, now);
    SameNameIff(fileId, filename, other, expiresAt);
  }

  lemma SameNameIff(fileId: string, filename: string, other: string, expiresAt: int)
    ensures Message(fileId, other, expiresAt) == Message(fileId, filename, expiresAt) <==> other == filename
  {
    SameMessageIff(fileId, other, expiresAt, fileId, filename, expiresAt);
    SameRest(fileId + ":", other, filename);
  }

  lemma SameRest(prefix: string, a: string, b: string)
    ensures prefix + a == prefix + b <==> a == b
  {
    assert (prefix + a)[|prefix|..] == a && (prefix + b)[|prefix|..] == b;
  }
}

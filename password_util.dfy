/**
 * PasswordUtil: the password strength rule, the rule-by-rule feedback text, the
 * lower-case hex encoding wrapped around SHA-256, and digest comparison.
 *
 * SHA-256 over `String.getBytes()` (platform charset) is a foreign call; it is the
 * parameter `sha256` of type Hasher. Only the byte-to-hex loop is modelled.
 */
module PasswordUtil {
  import opened JavaLang

  /** A Java byte: signed, -128..127. */
  newtype JByte = b: int | -128 <= b < 128

  /** MessageDigest.getInstance("SHA-256").digest(password.getBytes()), left abstract. */
  type Hasher = string -> seq<JByte>

  // ---------------------------------------------------------------------------
  // Character classes of the password rules
  // ---------------------------------------------------------------------------

  /** The three classes the rules ask for: [A-Za-z], \d and [@$!%*#?&+]. */
  datatype CharClass = Letter | Digit | Special

  predicate IsAsciiLetter(c: char) {
    ('A' <= c <= 'Z') || ('a' <= c <= 'z')
  }

  predicate IsSpecial(c: char) {
    c == '@' || c == '$' || c == '!' || c == '%' || c == '*' || c == '#' || c == '?' || c == '&' || c == '+'
  }

  predicate InClass(c: char, k: CharClass) {
    match k
    case Letter => IsAsciiLetter(c)
    case Digit => IsRegexDigit(c)
    case Special => IsSpecial(c)
  }

  /** [A-Za-z\d@$!%*#?&+]: the only characters a strong password may contain. */
  predicate InWhitelist(c: char) {
    InClass(c, Letter) || InClass(c, Digit) || InClass(c, Special)
  }

  predicate Contains(p: string, k: CharClass) {
    exists i :: 0 <= i < |p| && InClass(p[i], k)
  }

  // ---------------------------------------------------------------------------
  // isValidPassword: ^(?=.*[A-Za-z])(?=.*\d)(?=.*[@$!%*#?&+])[A-Za-z\d@$!%*#?&+]{8,}$
  // ---------------------------------------------------------------------------

  /**
   * The lookahead `(?=.*[k])` tried at the start of the input: some char of class k
   * is reached through chars that `.` matches, that is, without a line terminator.
   */
  predicate LookaheadFinds(p: string, k: CharClass) {
    exists i :: 0 <= i < |p| && InClass(p[i], k) && HasNoLineTerminator(p[..i])
  }

  /** Matcher.matches() for PASSWORD_PATTERN: three lookaheads, then 8 or more whitelisted chars. */
  predicate MatchesPasswordPattern(p: string) {
    && LookaheadFinds(p, Letter)
    && LookaheadFinds(p, Digit)
    && LookaheadFinds(p, Special)
    && |p| >= 8
    && forall i :: 0 <= i < |p| ==> InWhitelist(p[i])
  }

  /** PasswordUtil.isValidPassword: non-null and matching the pattern. */
  predicate IsValidPassword(password: Option<string>) {
    password.Some? && MatchesPasswordPattern(password.value)
  }

  /**
   * The acceptance set in plain terms: at least 8 chars, all from the whitelist,
   * with at least one letter, one digit and one special char.
   */
  lemma IsValidPasswordIff(p: string)
    ensures IsValidPassword(Some(p)) <==>
      && |p| >= 8
      && (forall i :: 0 <= i < |p| ==> InWhitelist(p[i]))
      && Contains(p, Letter) && Contains(p, Digit) && Contains(p, Special)
  {
    if |p| >= 8 && (forall i :: 0 <= i < |p| ==> InWhitelist(p[i])) {
      forall k: CharClass | Contains(p, k) ensures LookaheadFinds(p, k) {
        var i :| 0 <= i < |p| && InClass(p[i], k);
        assert HasNoLineTerminator(p[..i]) by {
          forall j | 0 <= j < i ensures !IsLineTerminator(p[..i][j]) {
            assert InWhitelist(p[j]);
          }
        }
      }
    }
  }

  /** Any char outside the whitelist (a space, '-', an umlaut) makes the password invalid. */
  lemma ForeignCharRejects(p: string, i: int)
    requires 0 <= i < |p| && !InWhitelist(p[i])
    ensures !IsValidPassword(Some(p))
  {
  }

  /** The seeded demo password "User123-" is rejected: '-' is not whitelisted. */
  lemma SeededUserPasswordRejected()
    ensures !IsValidPassword(Some("User123-"))
  {
    ForeignCharRejects("User123-", 7);
  }

  /** The seeded admin password "Admin123+" is accepted. */
  lemma SeededAdminPasswordAccepted()
    ensures IsValidPassword(Some("Admin123+"))
  {
    var p := "Admin123+";
    assert InClass(p[0], Letter) && InClass(p[5], Digit) && InClass(p[8], Special);
    IsValidPasswordIff(p);
  }

  // ---------------------------------------------------------------------------
  // checkPasswordRequirements
  // ---------------------------------------------------------------------------

  /** `password.matches(".*[k].*")`: some char of class k, and nowhere a line terminator. */
  predicate MatchesContaining(p: string, k: CharClass) {
    exists i :: 0 <= i < |p| && InClass(p[i], k) && HasNoLineTerminator(p[..i]) && HasNoLineTerminator(p[i + 1..])
  }

  lemma MatchesContainingIff(p: string, k: CharClass)
    ensures MatchesContaining(p, k) <==> HasNoLineTerminator(p) && Contains(p, k)
  {
    if HasNoLineTerminator(p) && Contains(p, k) {
      var i :| 0 <= i < |p| && InClass(p[i], k);
      assert HasNoLineTerminator(p[..i]) && HasNoLineTerminator(p[i + 1..]);
    }
    if MatchesContaining(p, k) {
      var i :| 0 <= i < |p| && InClass(p[i], k) && HasNoLineTerminator(p[..i]) && HasNoLineTerminator(p[i + 1..]);
      forall j | 0 <= j < |p| ensures !IsLineTerminator(p[j]) {
        if j < i {
          assert p[..i][j] == p[j];
        } else if j > i {
          assert p[i + 1..][j - i - 1] == p[j];
        }
      }
    }
  }

  /** The four rules of the feedback builder, in the order it checks them. */
  datatype Rule = MinLength | NeedsLetter | NeedsDigit | NeedsSpecial

  const RuleOrder: seq<Rule> := [MinLength, NeedsLetter, NeedsDigit, NeedsSpecial]

  predicate Violates(p: string, r: Rule) {
    match r
    case MinLength => |p| < 8
    case NeedsLetter => !MatchesContaining(p, Letter)
    case NeedsDigit => !MatchesContaining(p, Digit)
    case NeedsSpecial => !MatchesContaining(p, Special)
  }

  function RuleMessage(r: Rule): string {
    match r
    case MinLength => "Mindestens 8 Zeichen. "
    case NeedsLetter => "Mindestens 1 Buchstabe. "
    case NeedsDigit => "Mindestens 1 Zahl. "
    case NeedsSpecial => "Mindestens 1 Sonderzeichen (@$!%*#?&+). "
  }

  const EmptyPasswordMessage: string := "Passwort darf nicht leer sein"

  /** The rules among `rules` that p violates, in their order. */
  function Violated(p: string, rules: seq<Rule>): (vs: seq<Rule>)
    ensures forall r :: r in vs <==> r in rules && Violates(p, r)
  {
    if rules == [] then []
    else if Violates(p, rules[0]) then [rules[0]] + Violated(p, rules[1..])
    else Violated(p, rules[1..])
  }

  /** The concatenated messages of a list of rules. */
  function Messages(rules: seq<Rule>): string {
    if rules == [] then "" else RuleMessage(rules[0]) + Messages(rules[1..])
  }

  /**
   * The feedback text: the empty-input message for null or "", "OK" when no rule
   * fails, else "Fehlt: " followed by the trimmed list of messages.
   */
  function Feedback(password: Option<string>): string {
    if password.None? || password.value == [] then EmptyPasswordMessage
    else
      var issues := Messages(Violated(password.value, RuleOrder));
      if issues == [] then "OK" else "Fehlt: " + Trim(issues)
  }

  /** The message a single rule contributes: its text when violated, else nothing. */
  function MessageIf(p: string, r: Rule): string {
    if Violates(p, r) then RuleMessage(r) else ""
  }

  /** PasswordUtil.checkPasswordRequirements, appending one message per failing rule. */
  method CheckPasswordRequirements(password: Option<string>) returns (feedback: string)
    ensures feedback == Feedback(password)
  {
    if password.None? || password.value == [] {
      return EmptyPasswordMessage;
    }
    var p := password.value;
    var issues := "";
    if |p| < 8 {
      issues := issues + RuleMessage(MinLength);
    }
    assert issues == MessageIf(p, MinLength);
    if !MatchesContaining(p, Letter) {
      issues := issues + RuleMessage(NeedsLetter);
    }
    assert issues == MessageIf(p, MinLength) + MessageIf(p, NeedsLetter);
    if !MatchesContaining(p, Digit) {
      issues := issues + RuleMessage(NeedsDigit);
    }
    assert issues == MessageIf(p, MinLength) + MessageIf(p, NeedsLetter) + MessageIf(p, NeedsDigit);
    if !MatchesContaining(p, Special) {
      issues := issues + RuleMessage(NeedsSpecial);
    }
    IssuesInOrder(p);
    assert issues == Messages(Violated(p, RuleOrder));
    feedback := if |issues| == 0 then "OK" else "Fehlt: " + Trim(issues);
  }

  /** The issue text is the four rules' contributions, in the order the builder checks them. */
  lemma IssuesInOrder(p: string)
    ensures Messages(Violated(p, RuleOrder)) ==
      MessageIf(p, MinLength) + MessageIf(p, NeedsLetter) + MessageIf(p, NeedsDigit) + MessageIf(p, NeedsSpecial)
  {
    var r1, r2, r3 := [MinLength], [MinLength, NeedsLetter], [MinLength, NeedsLetter, NeedsDigit];
    assert Messages(Violated(p, r1)) == MessageIf(p, MinLength) by {
      MessagesAppend(p, [], MinLength);
      assert [] + [MinLength] == r1;
    }
    assert Messages(Violated(p, r2)) == Messages(Violated(p, r1)) + MessageIf(p, NeedsLetter) by {
      MessagesAppend(p, r1, NeedsLetter);
      assert r1 + [NeedsLetter] == r2;
    }
    assert Messages(Violated(p, r3)) == Messages(Violated(p, r2)) + MessageIf(p, NeedsDigit) by {
      MessagesAppend(p, r2, NeedsDigit);
      assert r2 + [NeedsDigit] == r3;
    }
    assert Messages(Violated(p, RuleOrder)) == Messages(Violated(p, r3)) + MessageIf(p, NeedsSpecial) by {
      MessagesAppend(p, r3, NeedsSpecial);
      assert r3 + [NeedsSpecial] == RuleOrder;
    }
  }

  /** Checking one more rule appends it to the violated ones exactly when it is violated. */
  lemma {:induction false} ViolatedAppend(p: string, rules: seq<Rule>, r: Rule)
    ensures Violated(p, rules + [r]) == Violated(p, rules) + (if Violates(p, r) then [r] else [])
  {
    if rules != [] {
      assert (rules + [r])[0] == rules[0];
      assert (rules + [r])[1..] == rules[1..] + [r];
      ViolatedAppend(p, rules[1..], r);
    }
  }

  /** The messages of two lists of rules, one after the other. */
  lemma {:induction false} MessagesConcat(a: seq<Rule>, b: seq<Rule>)
    ensures Messages(a + b) == Messages(a) + Messages(b)
  {
    if a != [] {
      assert (a + b)[0] == a[0];
      assert (a + b)[1..] == a[1..] + b;
      MessagesConcat(a[1..], b);
    } else {
      assert a + b == b;
    }
  }

  /** Checking one more rule appends its message exactly when it is violated. */
  lemma MessagesAppend(p: string, rules: seq<Rule>, r: Rule)
    ensures Messages(Violated(p, rules + [r])) == Messages(Violated(p, rules)) + MessageIf(p, r)
  {
    var tail := if Violates(p, r) then [r] else [];
    ViolatedAppend(p, rules, r);
    MessagesConcat(Violated(p, rules), tail);
    assert Messages(tail) == MessageIf(p, r) by {
      if Violates(p, r) {
        assert tail[1..] == [];
      }
    }
  }

  /** Every message starts with 'M' and ends with ". ". */
  lemma RuleMessageShape(r: Rule)
    ensures var m := RuleMessage(r); |m| >= 2 && m[0] == 'M' && m[|m| - 2] == '.' && m[|m| - 1] == ' '
  {
  }

  /** Messages of a non-empty rule list start with 'M' and end with ". ". */
  lemma {:induction false} MessagesShape(rules: seq<Rule>)
    requires rules != []
    ensures var m := Messages(rules); |m| >= 2 && m[0] == 'M' && m[|m| - 2] == '.' && m[|m| - 1] == ' '
  {
    var head, rest := RuleMessage(rules[0]), Messages(rules[1..]);
    RuleMessageShape(rules[0]);
    assert Messages(rules) == head + rest;
    if rules[1..] != [] {
      MessagesShape(rules[1..]);
    } else {
      assert rest == [];
    }
  }

  /** Messages(rules) is empty exactly when rules is. */
  lemma MessagesEmptyIff(rules: seq<Rule>)
    ensures Messages(rules) == [] <==> rules == []
  {
    if rules != [] {
      MessagesShape(rules);
    }
  }

  /** Null and "" get the empty-input message. */
  lemma FeedbackForEmpty()
    ensures Feedback(None) == EmptyPasswordMessage
    ensures Feedback(Some("")) == EmptyPasswordMessage
  {
  }

  /** For a non-empty password the feedback is "OK" exactly when no rule fails. */
  lemma FeedbackOkIff(p: string)
    requires p != []
    ensures Feedback(Some(p)) == "OK" <==> forall r :: !Violates(p, r)
  {
    var vs := Violated(p, RuleOrder);
    MessagesEmptyIff(vs);
    if vs != [] {
      FehltIsNotOk(Trim(Messages(vs)));
      assert vs[0] in vs;
    } else {
      forall r ensures !Violates(p, r) {
        EveryRuleChecked(r);
      }
    }
  }

  /** The builder checks every rule. */
  lemma EveryRuleChecked(r: Rule)
    ensures r in RuleOrder
  {
    match r
    case MinLength => assert RuleOrder[0] == r;
    case NeedsLetter => assert RuleOrder[1] == r;
    case NeedsDigit => assert RuleOrder[2] == r;
    case NeedsSpecial => assert RuleOrder[3] == r;
  }

  /** A "Fehlt: " text is never "OK". */
  lemma FehltIsNotOk(issues: string)
    ensures "Fehlt: " + issues != "OK"
  {
    assert ("Fehlt: " + issues)[0] == 'F';
  }

  /**
   * When some rule fails, the feedback is "Fehlt: " and the failing rules' messages
   * in the order length, letter, digit, special, without the final space.
   */
  lemma FeedbackListsFailures(p: string)
    requires p != [] && exists r :: Violates(p, r)
    ensures var m := Messages(Violated(p, RuleOrder));
      |m| >= 2 && Feedback(Some(p)) == "Fehlt: " + m[..|m| - 1]
  {
    var vs := Violated(p, RuleOrder);
    var r :| Violates(p, r);
    assert r in RuleOrder;
    assert vs != [];
    var m := Messages(vs);
    MessagesShape(vs);
    assert TrimLeading(m) == m;
    assert TrimTrailing(m) == TrimTrailing(m[..|m| - 1]);
    TrimOfTrimmed(m[..|m| - 1]);
  }

  /** A valid password passes every feedback rule... */
  lemma ValidPasswordGetsOk(p: string)
    requires IsValidPassword(Some(p))
    ensures Feedback(Some(p)) == "OK"
  {
    IsValidPasswordIff(p);
    assert HasNoLineTerminator(p) by {
      forall i | 0 <= i < |p| ensures !IsLineTerminator(p[i]) {
        assert InWhitelist(p[i]);
      }
    }
    forall k: CharClass ensures MatchesContaining(p, k) {
      MatchesContainingIff(p, k);
    }
    FeedbackOkIff(p);
  }

  /** ...but not the converse: the feedback builder has no whitelist, so "Pass word1!" gets "OK". */
  lemma OkFeedbackForInvalidPassword()
    ensures Feedback(Some("Pass word1!")) == "OK"
    ensures !IsValidPassword(Some("Pass word1!"))
  {
    var p := "Pass word1!";
    ForeignCharRejects(p, 4);
    assert HasNoLineTerminator(p);
    assert InClass(p[0], Letter) && InClass(p[9], Digit) && InClass(p[10], Special);
    forall k: CharClass ensures MatchesContaining(p, k) {
      MatchesContainingIff(p, k);
    }
    FeedbackOkIff(p);
  }

  // ---------------------------------------------------------------------------
  // hashPassword: two lower-case hex digits per digest byte
  // ---------------------------------------------------------------------------

  /** `0xff & b`: the byte read as unsigned. */
  function Unsigned(b: JByte): (u: int)
    ensures 0 <= u < 256
    ensures u % 256 == (b as int) % 256
  {
    if b < 0 then b as int + 256 else b as int
  }

  function HexDigit(v: int): (c: char)
    requires 0 <= v < 16
    ensures c in "0123456789abcdef"
  {
    if v < 10 then (48 + v) as char else (87 + v) as char
  }

  /** Integer.toHexString for 0..255: lower-case, without leading zeros. */
  function ToHexString(v: int): (s: string)
    requires 0 <= v < 256
  {
    if v < 16 then [HexDigit(v)] else [HexDigit(v / 16), HexDigit(v % 16)]
  }

  /** The loop body: toHexString of the unsigned byte, padded with '0' to two digits. */
  function ByteHex(b: JByte): string {
    var hex := ToHexString(Unsigned(b));
    if |hex| == 1 then ['0'] + hex else hex
  }

  /** The hex text of a digest, built by appending byte after byte. */
  function Hex(digest: seq<JByte>): string {
    if digest == [] then ""
    else Hex(digest[..|digest| - 1]) + ByteHex(digest[|digest| - 1])
  }

  /** hashPassword(p) */
  function PasswordHash(sha256: Hasher, password: string): string {
    Hex(sha256(password))
  }

  /** PasswordUtil.hashPassword: the hex loop over the digest of the password. */
  method HashPassword(sha256: Hasher, password: string) returns (hexString: string)
    ensures hexString == PasswordHash(sha256, password)
  {
    var hashBytes := sha256(password);
    hexString := "";
    for i := 0 to |hashBytes|
      invariant hexString == Hex(hashBytes[..i])
    {
      var hex := ToHexString(Unsigned(hashBytes[i]));
      if |hex| == 1 {
        hexString := hexString + ['0'];
      }
      hexString := hexString + hex;
      assert hashBytes[..i + 1][..i] == hashBytes[..i];
    }
    assert hashBytes[..|hashBytes|] == hashBytes;
  }

  /** Every byte becomes exactly two hex digits, the high nibble first. */
  lemma ByteHexDigits(b: JByte)
    ensures ByteHex(b) == [HexDigit(Unsigned(b) / 16), HexDigit(Unsigned(b) % 16)]
  {
    var u := Unsigned(b);
    if u < 16 {
      assert u / 16 == 0 && u % 16 == u;
      assert ByteHex(b) == ['0'] + [HexDigit(u)];
    } else {
      assert ByteHex(b) == [HexDigit(u / 16), HexDigit(u % 16)];
    }
  }

  lemma HexDigitInjective(v: int, w: int)
    requires 0 <= v < 16 && 0 <= w < 16
    ensures HexDigit(v) == HexDigit(w) ==> v == w
  {
  }

  /** Distinct bytes have distinct two-digit texts. */
  lemma ByteHexInjective(a: JByte, b: JByte)
    requires ByteHex(a) == ByteHex(b)
    ensures a == b
  {
    ByteHexDigits(a);
    ByteHexDigits(b);
    HexDigitInjective(Unsigned(a) / 16, Unsigned(b) / 16);
    HexDigitInjective(Unsigned(a) % 16, Unsigned(b) % 16);
  }

  /** The hex text is twice as long as the digest. */
  lemma {:induction false} HexLength(digest: seq<JByte>)
    ensures |Hex(digest)| == 2 * |digest|
  {
    if digest != [] {
      HexLength(digest[..|digest| - 1]);
      ByteHexDigits(digest[|digest| - 1]);
    }
  }

  /** Only 0-9 and a-f appear. */
  lemma {:induction false} HexAlphabet(digest: seq<JByte>)
    ensures forall i :: 0 <= i < |Hex(digest)| ==> Hex(digest)[i] in "0123456789abcdef"
  {
    if digest != [] {
      HexAlphabet(digest[..|digest| - 1]);
      ByteHexDigits(digest[|digest| - 1]);
    }
  }

  /** Two concatenations with equally long first parts agree part by part. */
  lemma ConcatCancel(a1: string, b1: string, a2: string, b2: string)
    requires a1 + b1 == a2 + b2 && |a1| == |a2|
    ensures a1 == a2 && b1 == b2
  {
    assert a1 == (a1 + b1)[..|a1|];
    assert a2 == (a2 + b2)[..|a2|];
    assert b1 == (a1 + b1)[|a1|..];
    assert b2 == (a2 + b2)[|a2|..];
  }

  /** The hex text of a non-empty digest ends with the two digits of its last byte. */
  lemma HexLast(d: seq<JByte>)
    requires d != []
    ensures Hex(d) == Hex(d[..|d| - 1]) + ByteHex(d[|d| - 1])
    ensures |Hex(d[..|d| - 1])| == 2 * (|d| - 1)
  {
    HexLength(d[..|d| - 1]);
  }

  /** Equal hex texts of equally long non-empty digests agree on the last byte and on the rest. */
  lemma HexLastEqual(d1: seq<JByte>, d2: seq<JByte>)
    requires d1 != [] && |d1| == |d2| && Hex(d1) == Hex(d2)
    ensures Hex(d1[..|d1| - 1]) == Hex(d2[..|d2| - 1]) && d1[|d1| - 1] == d2[|d2| - 1]
  {
    HexLast(d1);
    HexLast(d2);
    ConcatCancel(Hex(d1[..|d1| - 1]), ByteHex(d1[|d1| - 1]), Hex(d2[..|d2| - 1]), ByteHex(d2[|d2| - 1]));
    ByteHexInjective(d1[|d1| - 1], d2[|d2| - 1]);
  }

  lemma SplitLast(d: seq<JByte>)
    requires d != []
    ensures d == d[..|d| - 1] + [d[|d| - 1]]
  {
  }

  /** Distinct digests give distinct hex texts. */
  lemma {:induction false} HexInjective(d1: seq<JByte>, d2: seq<JByte>)
    requires Hex(d1) == Hex(d2)
    ensures d1 == d2
  {
    HexLength(d1);
    HexLength(d2);
    if d1 != [] {
      HexLastEqual(d1, d2);
      HexInjective(d1[..|d1| - 1], d2[..|d2| - 1]);
      SplitLast(d1);
      SplitLast(d2);
    }
  }

  /** A 32-byte SHA-256 digest gives a 64-char lower-case hex hash. */
  lemma PasswordHashShape(sha256: Hasher, password: string)
    requires |sha256(password)| == 32
    ensures |PasswordHash(sha256, password)| == 64
    ensures forall i :: 0 <= i < 64 ==> PasswordHash(sha256, password)[i] in "0123456789abcdef"
  {
    HexLength(sha256(password));
    HexAlphabet(sha256(password));
  }

  // ---------------------------------------------------------------------------
  // verifyPassword (and the helpers the callers use under other names)
  // ---------------------------------------------------------------------------

  /**
   * PasswordUtil.verifyPassword. The callers' `checkPassword` and
   * `generatePassword` are taken to be verifyPassword and hashPassword.
   */
  predicate VerifyPassword(sha256: Hasher, password: string, hash: string) {
    PasswordHash(sha256, password) == hash
  }

  /** A password always verifies against its own hash. */
  lemma VerifyAfterHash(sha256: Hasher, password: string)
    ensures VerifyPassword(sha256, password, PasswordHash(sha256, password))
  {
  }

  /** A password whose digest differs does not verify against another password's hash. */
  lemma VerifyRejectsOtherDigest(sha256: Hasher, password: string, other: string)
    requires sha256(password) != sha256(other)
    ensures !VerifyPassword(sha256, other, PasswordHash(sha256, password))
  {
    if VerifyPassword(sha256, other, PasswordHash(sha256, password)) {
      HexInjective(sha256(other), sha256(password));
    }
  }
}

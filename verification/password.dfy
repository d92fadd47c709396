/** Password hashing and the strength scorer (lib/auth/password.ts). Hashing is
    bcrypt with ten rounds, seen through the supplied `Bcrypt.Hasher`. */
module Password {
  import Bcrypt
  import Unicode

  /** `hashPassword(password)`, the random salt supplied. */
  function HashPassword(h: Bcrypt.Hasher, password: string, salt: string): (d: string)
    requires Bcrypt.Sound(h)
    ensures VerifyPassword(h, password, d)
    ensures Bcrypt.DigestShaped(d)
  {
    Bcrypt.Hash(h, password, salt)
  }

  /** `verifyPassword(password, hashedPassword)`. */
  predicate VerifyPassword(h: Bcrypt.Hasher, password: string, hashedPassword: string) {
    Bcrypt.Verify(h, password, hashedPassword)
  }

  /** A stored hash accepts its own password; below bcrypt's 72-byte limit it
      accepts no other, and in general exactly the guesses that agree with the
      password on the first 72 UTF-8 bytes. */
  lemma PasswordRoundTrip(h: Bcrypt.Hasher, password: string, salt: string, guess: string)
    requires Bcrypt.Sound(h)
    ensures VerifyPassword(h, guess, HashPassword(h, password, salt))
            <==> Bcrypt.KeyBytes(guess) == Bcrypt.KeyBytes(password)
    ensures |Unicode.Utf8(password)| < Bcrypt.MaxKeyBytes ==>
              (VerifyPassword(h, guess, HashPassword(h, password, salt)) <==> guess == password)
  {
    Bcrypt.VerifyExactly(h, password, salt, guess);
    Bcrypt.VerifyWithinLimit(h, password, salt, guess);
  }

  /** A password of 72 bytes or more is only checked up to the limit: the stored
      hash also accepts the password with anything appended. */
  lemma LongPasswordsCollide(h: Bcrypt.Hasher, password: string, salt: string, tail: string)
    requires Bcrypt.Sound(h)
    requires |Unicode.Utf8(password)| >= Bcrypt.MaxKeyBytes
    ensures VerifyPassword(h, password + tail, HashPassword(h, password, salt))
  {
    Bcrypt.TruncatedTail(h, password, salt, tail);
  }

  /** The four character classes the scorer tests with a one-character regex. */
  datatype CharClass = Lower | Upper | Digit | Special

  /** `[a-z]`, `[A-Z]`, `[0-9]` and `[^A-Za-z0-9]`. */
  predicate InClass(c: char, k: CharClass) {
    match k
    case Lower => 'a' <= c <= 'z'
    case Upper => 'A' <= c <= 'Z'
    case Digit => '0' <= c <= '9'
    case Special => !('a' <= c <= 'z' || 'A' <= c <= 'Z' || '0' <= c <= '9')
  }

  /** `/[class]/.test(s)`: the scan for a character of the class. */
  function Test(s: string, k: CharClass): (b: bool)
    ensures b <==> exists i :: 0 <= i < |s| && InClass(s[i], k)
  {
    if |s| == 0 then false
    else if InClass(s[0], k) then true
    else
      var b := Test(s[1..], k);
      assert forall i :: 1 <= i < |s| ==> s[i] == s[1..][i - 1];
      b
  }

  const LengthHint: string := "Use at least 8 characters"

  /** The feedback line for a class that is absent. */
  function Hint(k: CharClass): string {
    match k
    case Lower => "Add lowercase letters"
    case Upper => "Add uppercase letters"
    case Digit => "Add numbers"
    case Special => "Add special characters"
  }

  /** All feedback lines, in the order the scorer emits them. */
  const AllHints: seq<string> := [LengthHint, Hint(Lower), Hint(Upper), Hint(Digit), Hint(Special)]

  datatype Strength = Strength(isStrong: bool, score: nat, feedback: seq<string>)

  function Point(b: bool): nat {
    if b then 1 else 0
  }

  /** How many of the flags are raised. */
  function Raised(flags: seq<bool>): nat {
    if |flags| == 0 then 0 else Point(flags[0]) + Raised(flags[1..])
  }

  /** `a` keeps some entries of `b`, in `b`'s order. */
  predicate Subsequence(a: seq<string>, b: seq<string>)
    decreases |b|
  {
    |a| == 0 || (|b| > 0 && ((a[0] == b[0] && Subsequence(a[1..], b[1..])) || Subsequence(a, b[1..])))
  }

  /** Keeping or dropping the head of `b` in front of a subsequence of its tail. */
  lemma SubsequenceStep(keep: bool, b: seq<string>, rest: seq<string>)
    requires |b| > 0 && Subsequence(rest, b[1..])
    ensures Subsequence((if keep then [b[0]] else []) + rest, b)
  {
    var a := (if keep then [b[0]] else []) + rest;
    if keep {
      assert a[0] == b[0] && a[1..] == rest;
    } else {
      assert a == rest;
    }
  }

  /** A run of `if (flag) feedback.push(hint)` statements, one per hint, in order. */
  function Emit(flags: seq<bool>, hints: seq<string>): (r: seq<string>)
    requires |flags| == |hints|
    ensures |r| == Raised(flags)
    ensures Subsequence(r, hints)
    ensures forall h :: h in r <==> exists i :: 0 <= i < |hints| && flags[i] && hints[i] == h
  {
    if |flags| == 0 then []
    else
      var rest := Emit(flags[1..], hints[1..]);
      assert forall i :: 1 <= i < |hints| ==> hints[i] == hints[1..][i - 1] && flags[i] == flags[1..][i - 1];
      var r := (if flags[0] then [hints[0]] else []) + rest;
      SubsequenceStep(flags[0], hints, rest);
      r
  }

  /** `isPasswordStrong(password)`: a point at 8 characters and another at 12
      (JavaScript's `length`, in UTF-16 code units), a
      point per class present; a hint for a short password and for each absent
      class, in the order length, lowercase, uppercase, numbers, special. */
  function IsPasswordStrong(password: string): (r: Strength)
    ensures r.score <= 6
    ensures r.isStrong <==> r.score >= 4
    ensures LengthHint in r.feedback <==> Unicode.Utf16Length(password) < 8
    ensures forall k: CharClass :: Hint(k) in r.feedback <==> !Test(password, k)
    ensures |r.feedback| <= |AllHints| && Subsequence(r.feedback, AllHints)
    ensures r.score + |r.feedback| == if Unicode.Utf16Length(password) >= 12 then 6 else 5
  {
    var n := Unicode.Utf16Length(password);
    var score := Point(n >= 8) + Point(n >= 12)
                 + Point(Test(password, Lower)) + Point(Test(password, Upper))
                 + Point(Test(password, Digit)) + Point(Test(password, Special));
    var flags := [n < 8, !Test(password, Lower), !Test(password, Upper),
                  !Test(password, Digit), !Test(password, Special)];
    var feedback := Emit(flags, AllHints);
    RaisedFive(flags);
    HintsDistinct();
    Strength(score >= 4, score, feedback)
  }

  lemma RaisedFive(flags: seq<bool>)
    requires |flags| == 5
    ensures Raised(flags) == Point(flags[0]) + Point(flags[1]) + Point(flags[2]) + Point(flags[3]) + Point(flags[4])
  {
    var f1, f2, f3, f4 := flags[1..], flags[2..], flags[3..], flags[4..];
    assert f4[1..] == [] && f3[1..] == f4 && f2[1..] == f3 && f1[1..] == f2;
    assert Raised(f4) == Point(flags[4]);
    assert Raised(f3) == Point(flags[3]) + Raised(f4);
    assert Raised(f2) == Point(flags[2]) + Raised(f3);
    assert Raised(f1) == Point(flags[1]) + Raised(f2);
  }

  /** No two feedback lines are the same, and each class has its own position. */
  lemma HintsDistinct()
    ensures forall i, j :: 0 <= i < j < |AllHints| ==> AllHints[i] != AllHints[j]
    ensures AllHints[1] == Hint(Lower) && AllHints[2] == Hint(Upper)
    ensures AllHints[3] == Hint(Digit) && AllHints[4] == Hint(Special)
  {
    assert LengthHint[0] == 'U' && Hint(Lower)[4] == 'l' && Hint(Upper)[4] == 'u';
    assert Hint(Digit)[4] == 'n' && Hint(Special)[4] == 's';
  }

  /** The score splits into the length points and one point per class present. */
  lemma ScoreBreakdown(password: string)
    ensures IsPasswordStrong(password).score
            == (if Unicode.Utf16Length(password) >= 12 then 2 else if Unicode.Utf16Length(password) >= 8 then 1 else 0)
               + Point(exists i :: 0 <= i < |password| && InClass(password[i], Lower))
               + Point(exists i :: 0 <= i < |password| && InClass(password[i], Upper))
               + Point(exists i :: 0 <= i < |password| && InClass(password[i], Digit))
               + Point(exists i :: 0 <= i < |password| && InClass(password[i], Special))
  {
  }
}

/** Ids derived from a label: always well formed, and when the derivation gives up. */
module AccountIds {
  import opened Accounts
  import opened Bags
  import opened Common
  import opened Strings

  predicate IdChars(s: string) {
    forall k :: 0 <= k < |s| ==> Alnum(s[k]) || s[k] == '-'
  }

  /** No dash at either end: what slugify leaves. */
  predicate Tight(s: string) {
    s != "" ==> s[0] != '-' && s[|s| - 1] != '-'
  }

  lemma {:induction false} DashedChars(s: string)
    ensures IdChars(Dashed(s))
  {
    if s != "" { DashedChars(s[..|s| - 1]); }
  }

  lemma {:induction false} TrimLeftChars(s: string)
    requires IdChars(s)
    ensures var t := TrimDashesLeft(s); |t| <= |s| && IdChars(t) && (t != "" ==> t[0] != '-')
    ensures s != "" && s[0] != '-' ==> TrimDashesLeft(s) == s
  {
    if s != "" && s[0] == '-' { TrimLeftChars(s[1..]); }
  }

  lemma {:induction false} TrimRightChars(s: string)
    requires IdChars(s)
    ensures var t := TrimDashesRight(s); |t| <= |s| && IdChars(t) && (t != "" ==> t[0] == s[0] && t[|t| - 1] != '-')
    ensures s != "" && s[0] != '-' ==> TrimDashesRight(s) != ""
  {
    if s != "" && s[|s| - 1] == '-' { TrimRightChars(s[..|s| - 1]); }
  }

  lemma TrimTight(s: string)
    requires IdChars(s)
    ensures var t := TrimDashes(s); |t| <= |s| && IdChars(t) && Tight(t)
    ensures s != "" && s[0] != '-' ==> TrimDashes(s) != "" && TrimDashes(s)[0] == s[0]
    ensures Tight(s) ==> TrimDashes(s) == s
  {
    TrimLeftChars(s);
    TrimRightChars(TrimDashesLeft(s));
  }

  lemma SlugIsTight(name: string)
    ensures var g := Slugify(name); |g| <= 32 && IdChars(g) && Tight(g)
  {
    var d := Dashed(Lower(Strip(name)));
    DashedChars(Lower(Strip(name)));
    TrimTight(d);
    TrimTight(Clip(TrimDashes(d), 32));
  }

  lemma {:induction false} DigitsShape(n: nat)
    ensures Digits(n) != "" && forall k :: 0 <= k < |Digits(n)| ==> '0' <= Digits(n)[k] <= '9'
    ensures n < 100 ==> |Digits(n)| <= 2
  {
    if n >= 10 { DigitsShape(n / 10); }
  }

  lemma NumberedIsValid(stem: string, n: nat)
    requires stem != "" && IdChars(stem) && Tight(stem)
    ensures ValidId(Numbered(stem, n))
  {
    DigitsShape(n);
    var whole := stem + "-" + Digits(n);
    assert whole[0] == stem[0];
    assert IdChars(whole);
    TrimTight(Clip(whole, 32));
  }

  lemma {:induction false} FirstFreeIsValid(stem: string, taken: set<string>, n: nat)
    requires stem != "" && IdChars(stem) && Tight(stem)
    ensures FirstFree(stem, taken, n).Some? ==> ValidId(FirstFree(stem, taken, n).value)
    decreases 100 - n
  {
    if n < 100 {
      NumberedIsValid(stem, n);
      FirstFreeIsValid(stem, taken, n + 1);
    }
  }

  /** Whatever the label, a derived id is a valid one, so the check after it never fires. */
  lemma DerivedIdIsValid(name: string, ids: set<string>)
    ensures var id := UniqueId(Slugify(name), ids); id.Some? ==> ValidId(id.value)
  {
    var slug := Slugify(name);
    SlugIsTight(name);
    assert "account"[0] == 'a' && IdChars("account") && Tight("account");
    FirstFreeIsValid(NonEmptyOr(slug, "account"), ids + {"demo"}, 2);
  }

  // ---- When the derivation gives up --------------------------------------------

  lemma LongStemRepeats(stem: string, n: nat)
    requires 31 <= |stem| <= 32 && IdChars(stem) && Tight(stem)
    ensures Numbered(stem, n) == stem
  {
    DigitsShape(n);
    var whole := stem + "-" + Digits(n);
    var c := Clip(whole, 32);
    TrimTight(stem);
    if |stem| == 32 {
      assert c == stem;
    } else {
      assert c == stem + "-";
      TrimLeftChars(c);
      assert c[..|c| - 1] == stem;
      assert TrimDashesRight(stem) == stem;
      assert TrimDashes(c) == TrimDashesRight(c) == TrimDashesRight(stem);
    }
  }

  lemma {:induction false} LongStemNeverFree(stem: string, taken: set<string>, n: nat)
    requires 31 <= |stem| <= 32 && IdChars(stem) && Tight(stem) && stem in taken
    ensures FirstFree(stem, taken, n).None?
    decreases 100 - n
  {
    if n < 100 {
      LongStemRepeats(stem, n);
      LongStemNeverFree(stem, taken, n + 1);
    }
  }

  /** The suffix of a slug of 31 or 32 characters is cut off again, so a second book
      under such a name cannot be registered however few books there are. */
  lemma LongNameCannotRepeat(name: string, ids: set<string>)
    requires |Slugify(name)| >= 31 && Slugify(name) in ids
    ensures UniqueId(Slugify(name), ids).None?
  {
    SlugIsTight(name);
    LongStemNeverFree(Slugify(name), ids + {"demo"}, 2);
  }

  lemma ShortStemKeepsSuffix(stem: string, n: nat)
    requires 1 <= |stem| <= 29 && IdChars(stem) && Tight(stem) && n < 100
    ensures Numbered(stem, n) == stem + "-" + Digits(n)
  {
    DigitsShape(n);
    TrimTight(stem + "-" + Digits(n));
  }

  function Value(s: string): int {
    if s == "" then 0 else 10 * Value(s[..|s| - 1]) + (s[|s| - 1] as int - '0' as int)
  }

  lemma {:induction false} DigitsValue(n: nat)
    ensures Value(Digits(n)) == n
  {
    DigitsShape(n);
    var d := Digits(n);
    if n < 10 {
      assert d[..0] == "";
    } else {
      DigitsValue(n / 10);
      assert d[..|d| - 1] == Digits(n / 10);
    }
  }

  lemma ShortStemDiffers(stem: string, m: nat, n: nat)
    requires 1 <= |stem| <= 29 && IdChars(stem) && Tight(stem) && m < n < 100
    ensures Numbered(stem, m) != Numbered(stem, n)
  {
    ShortStemKeepsSuffix(stem, m);
    ShortStemKeepsSuffix(stem, n);
    DigitsValue(m);
    DigitsValue(n);
    var dash := stem + "-";
    assert (dash + Digits(m))[|dash|..] == Digits(m) && (dash + Digits(n))[|dash|..] == Digits(n);
  }

  /** The candidates from n to 99, all of them taken. */
  lemma {:induction false} AllTaken(stem: string, taken: set<string>, n: nat) returns (used: set<string>)
    requires 1 <= |stem| <= 29 && IdChars(stem) && Tight(stem) && n <= 100
    requires FirstFree(stem, taken, n).None?
    ensures used <= taken && |used| == 100 - n
    ensures forall c :: c in used ==> exists k :: n <= k < 100 && c == Numbered(stem, k)
    decreases 100 - n
  {
    if n == 100 {
      used := {};
    } else {
      var later := AllTaken(stem, taken, n + 1);
      if Numbered(stem, n) in later {
        var k :| n + 1 <= k < 100 && Numbered(stem, n) == Numbered(stem, k);
        ShortStemDiffers(stem, n, k);
        assert false;
      }
      used := later + {Numbered(stem, n)};
    }
  }

  /** With a slug of at most 29 characters, and fewer than 98 taken ids, an id is found. */
  lemma ShortNameAlwaysFits(name: string, ids: set<string>)
    requires |Slugify(name)| <= 29 && |ids| < 97
    ensures UniqueId(Slugify(name), ids).Some?
  {
    SlugIsTight(name);
    var stem, taken := NonEmptyOr(Slugify(name), "account"), ids + {"demo"};
    assert IdChars("account") && Tight("account") && |"account"| == 7;
    assert |taken| <= |ids| + 1;
    if UniqueId(Slugify(name), ids).None? {
      var used := AllTaken(stem, taken, 2);
      SmallerSet(used, taken);
    }
  }

  // ---- Exactly when -------------------------------------------------------------

  lemma {:induction false} FirstFreeFails(stem: string, taken: set<string>, n: nat)
    ensures FirstFree(stem, taken, n).None? <==> forall k :: n <= k < 100 ==> Numbered(stem, k) in taken
    decreases 100 - n
  {
    if n < 100 { FirstFreeFails(stem, taken, n + 1); }
  }

  function OneDigit(stem: string, d: nat): string {
    stem + "-" + Digits(d)
  }

  /** A slug of 30 characters leaves room for one digit: the tens are what is left of the rest. */
  lemma ThirtyKeepsOneDigit(stem: string, n: nat)
    requires |stem| == 30 && IdChars(stem) && Tight(stem) && 1 <= n < 100
    ensures Numbered(stem, n) == OneDigit(stem, if n < 10 then n else n / 10)
  {
    var d := if n < 10 then n else n / 10;
    DigitsShape(n);
    DigitsShape(d);
    assert |Digits(d)| == 1 && Digits(n)[..1] == Digits(d);
    var whole := stem + "-" + Digits(n);
    assert Clip(whole, 32) == OneDigit(stem, d);
    TrimTight(OneDigit(stem, d));
  }

  predicate NineTaken(stem: string, taken: set<string>) {
    forall d :: 1 <= d <= 9 ==> OneDigit(stem, d) in taken
  }

  lemma NumberedIsOneOfNine(stem: string, taken: set<string>, k: nat)
    requires |stem| == 30 && IdChars(stem) && Tight(stem) && 2 <= k < 100 && NineTaken(stem, taken)
    ensures Numbered(stem, k) in taken
  {
    ThirtyKeepsOneDigit(stem, k);
    var d := if k < 10 then k else k / 10;
    assert 1 <= d <= 9 && OneDigit(stem, d) in taken;
  }

  lemma OneDigitIsNumbered(stem: string, d: nat)
    requires |stem| == 30 && IdChars(stem) && Tight(stem) && 1 <= d <= 9
    ensures Numbered(stem, 10 * d) == OneDigit(stem, d)
  {
    ThirtyKeepsOneDigit(stem, 10 * d);
    assert 10 * d / 10 == d;
  }

  lemma ThirtyFails(stem: string, taken: set<string>)
    requires |stem| == 30 && IdChars(stem) && Tight(stem)
    ensures FirstFree(stem, taken, 2).None? <==> NineTaken(stem, taken)
  {
    FirstFreeFails(stem, taken, 2);
    if NineTaken(stem, taken) {
      forall k | 2 <= k < 100 ensures Numbered(stem, k) in taken {
        NumberedIsOneOfNine(stem, taken, k);
      }
    } else {
      var d :| 1 <= d <= 9 && OneDigit(stem, d) !in taken;
      OneDigitIsNumbered(stem, d);
    }
  }

  /** In a registry that has room, no id can be derived exactly when the slug is in use and
      either has 31 or 32 characters, or has 30 and all its nine numbered forms are in use. */
  lemma DerivationFailsExactly(name: string, ids: set<string>)
    requires |ids| < MAX_ACCOUNTS
    ensures var slug := Slugify(name);
            UniqueId(slug, ids).None?
            <==> slug in ids && (|slug| >= 31 || (|slug| == 30 && NineTaken(slug, ids)))
  {
    var slug := Slugify(name);
    SlugIsTight(name);
    assert |"demo"| == 4;
    if |slug| <= 29 {
      ShortNameAlwaysFits(name, ids);
    } else if |slug| == 30 {
      ThirtyFails(slug, ids + {"demo"});
      forall d | 1 <= d <= 9 ensures OneDigit(slug, d) != "demo" {
        assert |OneDigit(slug, d)| > 4;
      }
    } else if slug in ids {
      LongNameCannotRepeat(name, ids);
    }
  }

  // ---- Slugs -------------------------------------------------------------------

  predicate NoAlnum(s: string) {
    forall k :: 0 <= k < |s| ==> !Alnum(s[k])
  }

  /** What one more character adds; `after` says that the one before it was kept as it is. */
  function Onward(before: string, after: bool, c: char): string {
    if Alnum(c) then before + [c]
    else if before != "" && before[|before| - 1] == '-' && !after then before
    else before + ['-']
  }

  lemma DashedLast(t: string)
    requires t != ""
    ensures Dashed(t) == Onward(Dashed(t[..|t| - 1]), |t| > 1 && Alnum(t[|t| - 2]), t[|t| - 1])
  {
  }

  lemma DashedSnoc(s: string, c: char)
    ensures Dashed(s + [c]) == Onward(Dashed(s), s != "" && Alnum(s[|s| - 1]), c)
  {
    var t := s + [c];
    DashedLast(t);
    assert t[..|t| - 1] == s;
  }

  lemma OnwardLater(d: string, before: string, after: bool, c: char)
    requires before != ""
    ensures Onward(d + before, after, c) == d + Onward(before, after, c)
  {
    assert d + (before + [c]) == d + before + [c] && d + (before + ['-']) == d + before + ['-'];
  }

  lemma {:induction false} DashedTail(a: string, run: string)
    requires (a == "" || Alnum(a[|a| - 1])) && run != "" && NoAlnum(run)
    ensures Dashed(a + run) == Dashed(a) + "-"
  {
    var front, c := run[..|run| - 1], run[|run| - 1];
    assert a + run == a + front + [c];
    DashedSnoc(a + front, c);
    if front == "" {
      assert a + front == a;
      if a != "" { DashedSnoc(a[..|a| - 1], a[|a| - 1]); assert a == a[..|a| - 1] + [a[|a| - 1]]; }
    } else {
      DashedTail(a, front);
    }
  }

  /** One more character does to x what it does to its tail y. */
  lemma DashedLater(x: string, y: string, d: string, c: char)
    requires x != "" && y != "" && x[|x| - 1] == y[|y| - 1] && Dashed(y) != "" && Dashed(x) == d + Dashed(y)
    ensures Dashed(x + [c]) == d + Dashed(y + [c]) && Dashed(y + [c]) != ""
  {
    DashedSnoc(x, c);
    DashedSnoc(y, c);
    OnwardLater(d, Dashed(y), Alnum(y[|y| - 1]), c);
  }

  /** A run of characters that are neither letters nor digits, between what is, becomes one
      dash, and nothing else changes. */
  lemma {:induction false} DashedRun(a: string, run: string, b: string)
    requires (a == "" || Alnum(a[|a| - 1])) && run != "" && NoAlnum(run) && b != "" && Alnum(b[0])
    ensures Dashed(a + run + b) == Dashed(a) + "-" + Dashed(b) && Dashed(b) != ""
  {
    var front, c := b[..|b| - 1], b[|b| - 1];
    assert a + run + b == a + run + front + [c] && b == front + [c];
    if front == "" {
      assert a + run + front == a + run;
      DashedTail(a, run);
      DashedSnoc(a + run, c);
      DashedSnoc("", c);
    } else {
      DashedRun(a, run, front);
      DashedLater(a + run + front, front, Dashed(a) + "-", c);
    }
  }

  lemma {:induction false} DashedWord(s: string)
    requires forall k :: 0 <= k < |s| ==> Alnum(s[k])
    ensures Dashed(s) == s
  {
    if s != "" { DashedWord(s[..|s| - 1]); }
  }
}

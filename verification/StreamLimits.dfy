/** Concrete streams outside the premises of the streaming theorem: each shows something and
    takes it back. */
module StreamLimits {
  import opened Unicode
  import opened Tokens
  import opened Scanner
  import opened Streaming
  import opened StreamRuns
  import opened StreamExact
  import opened PlainText

  /** The sample t shows something that is not the beginning of the rewriting of t + d. */
  ghost predicate TakesBack(u: Tables, rules: Rules, t: string, d: string) {
    exists h: nat :: IsHoldback(u, rules.pats, Rewrite(u, rules, t, 0), h) && h <= |Rewrite(u, rules, t, 0)|
      && !(Rewrite(u, rules, t, 0)[..|Rewrite(u, rules, t, 0)| - h] <= Rewrite(u, rules, t + d, 0))
  }

  lemma FirstDiffers(u: Tables, rules: Rules, t: string, d: string)
    requires IsHoldback(u, rules.pats, Rewrite(u, rules, t, 0), 0) && Rewrite(u, rules, t, 0) != [] && Rewrite(u, rules, t + d, 0) != []
    requires Rewrite(u, rules, t, 0)[0] != Rewrite(u, rules, t + d, 0)[0]
    ensures TakesBack(u, rules, t, d) && !(Shown(Rewrite(u, rules, t, 0), 0) <= Rewrite(u, rules, t + d, 0))
  {
    hide Rewrite, IsHoldback;
    var r := Rewrite(u, rules, t, 0);
    assert r[..|r| - 0] == r && Shown(r, 0) == r;
  }

  const ONE_KEY := Rules(["ab"], map["ab" := "xy"])

  /** A complete key at the end of a sample, replaced and shown, is un-replaced when a letter
      follows. */
  lemma LetterAfterKeyTakesBack()
    ensures TakesBack(ASCII, ONE_KEY, "ab", "c")
  {
    hide *;
    KeyReplaced();
    LetterKeeps();
    OneKeyHeld();
    FirstDiffers(ASCII, ONE_KEY, "ab", "c");
  }

  lemma KeyReplaced()
    ensures Rewrite(ASCII, ONE_KEY, "ab", 0) == "xy" && "xy"[0] == 'x'
  {
    var t := "ab";
    PlainMatches(t, 0, "ab");
    assert t[0..2] == "ab";
    assert KeyLen(ASCII, ONE_KEY.pats, t, 0) == 2;
    hide Rewrite, KeyLen;
    PlainReplaced(ONE_KEY, t, 0, 2);
    RewriteEnd(ASCII, ONE_KEY, t);
  }

  lemma LetterKeeps()
    ensures "ab" + "c" == "abc" && Rewrite(ASCII, ONE_KEY, "abc", 0) != [] && Rewrite(ASCII, ONE_KEY, "abc", 0)[0] == 'a'
  {
    var t := "abc";
    PlainMatches(t, 0, "ab");
    assert t[0..2] == "ab" && t[2] == 'c' && "ab" + "c" == t;
    PlainChar('c');
    assert KeyLen(ASCII, ONE_KEY.pats, t, 0) == 2 && !Clear(ASCII, t, 0, 2);
    FirstKept(ASCII, ONE_KEY, t, 0);
  }

  lemma OneKeyHeld()
    ensures IsHoldback(ASCII, ONE_KEY.pats, "xy", 0)
  {
    assert "ab"[0] == 'a' && "xy"[0] == 'x' && "xy"[1] == 'y';
    hide *;
    NothingHeld(ONE_KEY.pats, "xy");
  }

  /** No key begins with one of the letters of buf. */
  lemma NothingHeld(pats: seq<string>, buf: string)
    requires Plain(buf)
    requires forall p, k :: p in pats && 0 <= k < |buf| && p != [] && LeftClear(ASCII, buf, k) ==> p[0] != buf[k]
    ensures IsHoldback(ASCII, pats, buf, 0)
  {
    forall k: nat | 0 < k <= |buf|
      ensures !Holdable(ASCII, pats, buf, k)
    {
      PlainFold(buf[|buf| - k..]);
      assert buf[|buf| - k..][0] == buf[|buf| - k];
    }
  }

  const FIRST_NAME_ONLY := Rules(["ab cd", "ab"], map["ab cd" := "xy zw", "ab" := "xy"])

  /** A first name that is registered without its last name: the full name's beginning is
      rewritten and shown before the full name has arrived. */
  lemma UnalignedFirstNameTakesBack()
    ensures TakesBack(ASCII, FIRST_NAME_ONLY, "ab c", "d")
  {
    hide Rewrite;
    FirstNameReplaced();
    FullNameReplaced();
    assert "ab c" + "d" == "ab cd";
    NothingHeld(FIRST_NAME_ONLY.pats, "xy c");
    assert "xy c"[..4 - 0][3] == 'c' && "xy zw"[3] == 'z';
  }

  lemma KeyOfFirstName()
    ensures KeyLen(ASCII, FIRST_NAME_ONLY.pats, "ab c", 0) == 2 && "ab c"[0..2] == "ab" && "ab c"[2] == ' '
  {
    var pats := FIRST_NAME_ONLY.pats;
    PlainMatches("ab c", 0, "ab");
    assert "ab c"[0..2] == "ab" && pats[1..] == ["ab"];
    assert KeyLen(ASCII, pats[1..], "ab c", 0) == 2;
  }

  lemma FirstNameReplaced()
    ensures Rewrite(ASCII, FIRST_NAME_ONLY, "ab c", 0) == "xy c"
  {
    KeyOfFirstName();
    LastLetterKept();
    hide Rewrite, KeyLen;
    PlainReplaced(FIRST_NAME_ONLY, "ab c", 0, 2);
  }

  lemma NoKeyBehind()
    ensures KeyLen(ASCII, FIRST_NAME_ONLY.pats, "ab c", 2) == 0 && KeyLen(ASCII, FIRST_NAME_ONLY.pats, "ab c", 3) == 0
  {
    hide KeyLen, IsWordRune, IsWordContext;
    var pats := FIRST_NAME_ONLY.pats;
    assert pats == ["ab cd", "ab"] && "ab c"[2..4] == " c";
    NoKey(pats, "ab c", 2);
    NoKey(pats, "ab c", 3);
  }

  lemma LastLetterKept()
    ensures Rewrite(ASCII, FIRST_NAME_ONLY, "ab c", 2) == " c"
  {
    hide KeyLen, Rewrite;
    NoKeyBehind();
    CopyStep(ASCII, FIRST_NAME_ONLY, "ab c", 2);
    CopyStep(ASCII, FIRST_NAME_ONLY, "ab c", 3);
    RewriteEnd(ASCII, FIRST_NAME_ONLY, "ab c");
  }

  lemma FullNameReplaced()
    ensures Rewrite(ASCII, FIRST_NAME_ONLY, "ab cd", 0) == "xy zw"
  {
    PlainMatches("ab cd", 0, "ab cd");
    assert "ab cd"[0..5] == "ab cd";
    PlainReplaced(FIRST_NAME_ONLY, "ab cd", 0, 5);
  }

  // ---- A decomposed name ----

  const NAMES := Rules(["ab cd", "ab", "cd"], map["ab cd" := "xy zw", "ab" := "xy", "cd" := "zw"])

  /** A first name at a sample's end, shown, is un-replaced when the continuation, which starts outside
      a word, completes the full name inside a longer word. */
  lemma BrokenFullNameTakesBack()
    ensures TakesBack(ASCII, NAMES, "ab", " cde") && !Kept(ASCII, NAMES, "ab", " cde", 0, 0)
  {
    hide *;
    OnlyFirst();
    BrokenKept();
    NoneHeld();
    NamesAreParts();
    AsciiIsLawful();
    FirstDiffers(ASCII, NAMES, "ab", " cde");
    StreamingExact(ASCII, NAMES, "ab", " cde", 0);
  }

  lemma NoneHeld()
    ensures IsHoldback(ASCII, NAMES.pats, "xy", 0)
  {
    assert "ab cd"[0] == 'a' && "ab"[0] == 'a' && "cd"[0] == 'c' && "xy"[0] == 'x' && "xy"[1] == 'y';
    hide *;
    NothingHeld(NAMES.pats, "xy");
  }

  lemma OnlyFirst()
    ensures Rewrite(ASCII, NAMES, "ab", 0) == "xy" && "xy"[0] == 'x' && "ab" + " cde" == "ab cde"
  {
    assert "ab" + " cde" == "ab cde";
    var t := "ab";
    PlainMatches(t, 0, "ab");
    assert t[0..2] == "ab" && NAMES.pats[1..][0] == "ab";
    assert KeyLen(ASCII, NAMES.pats[1..], t, 0) == 2;
    assert KeyLen(ASCII, NAMES.pats, t, 0) == 2;
    hide Rewrite, KeyLen;
    PlainReplaced(NAMES, t, 0, 2);
    RewriteEnd(ASCII, NAMES, t);
  }

  lemma BrokenKept()
    ensures Rewrite(ASCII, NAMES, "ab cde", 0) != [] && Rewrite(ASCII, NAMES, "ab cde", 0)[0] == 'a'
  {
    var t := "ab cde";
    PlainMatches(t, 0, "ab cd");
    assert t[0..5] == "ab cd" && t[5] == 'e';
    PlainChar('e');
    assert KeyLen(ASCII, NAMES.pats, t, 0) == 5 && !Clear(ASCII, t, 0, 5);
    FirstKept(ASCII, NAMES, t, 0);
  }

  /** The map is one of those the exact condition is about. */
  lemma NamesAreParts()
    ensures Parts(ASCII, NAMES) && Exacting(ASCII, NAMES)
  {
    NamesLaterWords();
    NamesEnds();
    NamesExact();
  }

  lemma NamesLaterWords()
    ensures LaterWords(ASCII, NAMES.pats)
  {
    var f := "ab cd";
    assert f[0] == 'a' && f[1] == 'b' && f[2] == ' ' && f[3] == 'c' && f[4] == 'd' && f[3..] == "cd";
    PlainChar('a');
    PlainChar('b');
    PlainChar('c');
    forall p, k, j: nat | p in NAMES.pats && k in NAMES.pats && j > 0 && BeginsWordAt(ASCII, p, k, j)
      ensures k == p[j..]
    {
      assert k[0] == p[j..][0] && p[j..][0] == p[j];
      assert p == f && j == 3;
    }
  }

  lemma NamesEnds()
    ensures WellFormed(NAMES) && StartsClean(NAMES.pats)
  {
    assert "ab cd"[0] == 'a' && "ab"[0] == 'a' && "cd"[0] == 'c';
  }

  lemma NamesExact()
    ensures Exacting(ASCII, NAMES)
  {
    var f := "ab cd";
    assert f[0] == 'a' && f[2..] == " cd" && f[3..] == "cd" && "ab" + " " <= f && "xy" + " " <= "xy zw";
    forall p | p in NAMES.pats
      ensures NotBegun(ASCII, p, NAMES.table[p])
    {
      NamesNotBegun(p);
    }
    forall p, k | p in NAMES.pats && k in NAMES.pats && k < p
      ensures FirstOf(NAMES, p, k)
    {
      assert p == f && k[0] == f[0] && "cd"[0] == 'c';
      NotTokens();
    }
  }

  lemma NotTokens()
    ensures !IsToken("xy") && !IsToken("xy zw")
  {
    assert "xy"[0] == 'x' && "xy zw"[0] == 'x';
  }

  lemma NamesNotBegun(p: string)
    requires p in NAMES.pats
    ensures NotBegun(ASCII, p, NAMES.table[p])
  {
    var v := NAMES.table[p];
    assert v == "xy zw" || v == "xy" || v == "zw";
    assert v[0] == 'x' || v[0] == 'z';
    assert p[0] == 'a' || p[0] == 'c';
    PlainFold(v);
    PlainStable(v);
  }

  // ---- Two tokens side by side ----

  const TOKENS := Rules(["<e_1>", "<e_2>"], map["<e_1>" := "ab", "<e_2>" := "cd"])

  lemma TokenChars()
    ensures var s, p, q := "<E_1><E_2>", "<e_1>", "<e_2>";
            && |s| == 10 && |p| == |q| == 5
            && s[0] == '<' && s[1] == 'E' && s[2] == '_' && s[3] == '1' && s[4] == '>'
            && s[5] == '<' && s[6] == 'E' && s[7] == '_' && s[8] == '2' && s[9] == '>'
            && p[0] == '<' && p[1] == 'e' && p[2] == '_' && p[3] == '1' && p[4] == '>'
            && q[0] == '<' && q[1] == 'e' && q[2] == '_' && q[3] == '2' && q[4] == '>'
    ensures "<E_1><" == "<E_1><E_2>"[..6] && "<E_1><" + "E_2>" == "<E_1><E_2>"
  {
  }

  /** The token with digit c at i. */
  predicate TokenAt(text: string, i: nat, c: char) {
    i + 5 <= |text| && text[i] == '<' && text[i + 1] == 'E' && text[i + 2] == '_' && text[i + 3] == c && text[i + 4] == '>'
  }

  lemma TokenTaken(text: string, i: nat, c: char)
    requires TokenAt(text, i, c) && (c == '1' || c == '2')
    ensures KeyLen(ASCII, TOKENS.pats, text, i) == 5 && Fold(ASCII, text[i..i + 5]) == if c == '1' then "<e_1>" else "<e_2>"
  {
    TokenChars();
    var f, p, q := Fold(ASCII, text[i..i + 5]), "<e_1>", "<e_2>";
    assert f[0] == '<' && f[1] == 'e' && f[2] == '_' && f[3] == c && f[4] == '>';
    assert c == '1' ==> f == p;
    assert c == '2' ==> f == q && f != p;
    assert TOKENS.pats == [p, q] && TOKENS.pats[1..] == [q];
    assert c == '2' ==> KeyLen(ASCII, TOKENS.pats[1..], text, i) == 5;
  }

  lemma IsTokenText(text: string, i: nat, c: char)
    requires TokenAt(text, i, c) && (c == '1' || c == '2')
    ensures IsToken(text[i..i + 5])
  {
    var n: nat := if c == '1' then 1 else 2;
    TokenParses("E", n);
    assert Token("E", n) == text[i..i + 5];
  }

  lemma TokenClear(text: string, i: nat, c: char)
    requires TokenAt(text, i, c) && (i == 0 || text[i - 1] == '>') && (i + 5 == |text| || text[i + 5] == '<')
    ensures Clear(ASCII, text, i, 5) && End(ASCII, text, i, 5) == i + 5
  {
  }

  /** A token at a word boundary is replaced by its name. */
  lemma TokenReplaced(text: string, i: nat, c: char)
    requires TokenAt(text, i, c) && (c == '1' || c == '2')
    requires (i == 0 || text[i - 1] == '>') && (i + 5 == |text| || text[i + 5] == '<')
    ensures Accepted(ASCII, TOKENS.pats, text, i) && End(ASCII, text, i, 5) == i + 5
    ensures Emit(ASCII, TOKENS.table, text, i, 5) == if c == '1' then "ab" else "cd"
    ensures Rewrite(ASCII, TOKENS, text, i) == (if c == '1' then "ab" else "cd") + Rewrite(ASCII, TOKENS, text, i + 5)
  {
    TokenTaken(text, i, c);
    IsTokenText(text, i, c);
    TokenClear(text, i, c);
    AsIsCase(text[i..i + 5], if c == '1' then "ab" else "cd");
    hide KeyLen, Rewrite, Emit, IsToken, Fold, MatchCase, Clear, End;
    ClearEmit(ASCII, TOKENS.table, text, i, 5);
    RewriteIs(ASCII, TOKENS, text, i, 5);
    assert text[i + 5..i + 5] == [];
  }

  lemma AsIsCase(source: string, value: string)
    requires IsToken(source)
    ensures MatchCase(ASCII, source, value) == value
  {
  }

  lemma TokenAndBracket()
    ensures Rewrite(ASCII, TOKENS, "<E_1><", 0) == "ab<"
  {
    TokenChars();
    var t := "<E_1><";
    TokenReplaced(t, 0, '1');
    NoneFits(t);
    CopyStep(ASCII, TOKENS, t, 5);
    RewriteEnd(ASCII, TOKENS, t);
    hide *;
    assert "ab" + (['<'] + []) == "ab<";
  }

  lemma NoneFits(t: string)
    requires |t| == 6
    ensures KeyLen(ASCII, TOKENS.pats, t, 5) == 0
  {
    TokenChars();
    hide KeyLen;
    if KeyLen(ASCII, TOKENS.pats, t, 5) > 0 {
      KeyTaken(ASCII, TOKENS.pats, t, 5);
    }
  }

  lemma TwoTokens()
    ensures Rewrite(ASCII, TOKENS, "<E_1><E_2>", 0) == "abcd"
  {
    TokenChars();
    TwoTokensIn("<E_1><E_2>");
  }

  lemma TwoTokensIn(t: string)
    requires |t| == 10 && TokenAt(t, 0, '1') && TokenAt(t, 5, '2')
    ensures Rewrite(ASCII, TOKENS, t, 0) == "abcd"
  {
    hide Rewrite, KeyLen, Clear, Emit, End;
    TokenReplaced(t, 0, '1');
    TokenReplaced(t, 5, '2');
    RewriteEnd(ASCII, TOKENS, t);
    assert "ab" + ("cd" + []) == "abcd";
  }

  lemma BracketShown()
    ensures IsHoldback(ASCII, TOKENS.pats, "ab<", 0)
  {
    TokenChars();
    var r := "ab<";
    assert r[0] == 'a' && r[1] == 'b';
    forall k: nat
      ensures !Holdable(ASCII, TOKENS.pats, r, k)
    {
      if k == 3 {
        assert Fold(ASCII, r[0..])[0] == 'a';
      }
    }
  }

  /** The name a token is replaced by ends inside a word where the token did not: the beginning of the
      next token is shown. */
  lemma GluedTokenTakesBack()
    ensures TakesBack(ASCII, TOKENS, "<E_1><", "E_2>")
    ensures !Unglued(ASCII, TOKENS, "<E_1><", "E_2>") && !Kept(ASCII, TOKENS, "<E_1><", "E_2>", 0, 0)
  {
    TokenChars();
    hide *;
    TokenAndBracket();
    TwoTokens();
    BracketShown();
    GluedHere();
    TokensAreParts();
    AsciiIsLawful();
    BracketDiffers();
    NotBeginning(ASCII, TOKENS, "<E_1><", "E_2>");
    StreamingExact(ASCII, TOKENS, "<E_1><", "E_2>", 0);
  }

  lemma BracketDiffers()
    ensures !("ab<" <= "abcd")
  {
    assert "ab<"[2] == '<' && "abcd"[2] == 'c';
  }

  lemma NotBeginning(u: Tables, rules: Rules, t: string, d: string)
    requires IsHoldback(u, rules.pats, Rewrite(u, rules, t, 0), 0) && !(Rewrite(u, rules, t, 0) <= Rewrite(u, rules, t + d, 0))
    ensures TakesBack(u, rules, t, d) && !(Shown(Rewrite(u, rules, t, 0), 0) <= Rewrite(u, rules, t + d, 0))
  {
    hide Rewrite, IsHoldback;
    var r := Rewrite(u, rules, t, 0);
    assert r[..|r| - 0] == r && Shown(r, 0) == r;
  }

  lemma FirstOfPrefix(k: string, r: string)
    ensures k != [] && k <= r ==> r != [] && r[0] == k[0]
  {
  }

  lemma NoLaterToken(a: string, k: string, j: nat)
    requires a in TOKENS.pats && k in TOKENS.pats && 0 < j <= |a|
    ensures !BeginsWordAt(ASCII, a, k, j)
  {
    TokenChars();
    FirstOfPrefix(k, a[j..]);
    assert j < |a| ==> a[j..][0] == a[j] && a[j] != '<';
  }

  lemma TokensLaterWords()
    ensures LaterWords(ASCII, TOKENS.pats)
  {
    forall a, k, j: nat | a in TOKENS.pats && k in TOKENS.pats && j > 0
      ensures !BeginsWordAt(ASCII, a, k, j)
    {
      if j <= |a| {
        NoLaterToken(a, k, j);
      }
    }
  }

  lemma TokensExact()
    ensures Exacting(ASCII, TOKENS)
  {
    TokenChars();
    PlainFold("ab");
    PlainFold("cd");
    PlainStable("ab");
    PlainStable("cd");
    assert "ab"[0] == 'a' && "cd"[0] == 'c';
    hide Fold, CaseStable, FirstOf, GoesOn;
    assert NotBegun(ASCII, "<e_1>", "ab") && NotBegun(ASCII, "<e_2>", "cd");
  }

  /** The map is one of those the exact condition is about. */
  lemma TokensAreParts()
    ensures Parts(ASCII, TOKENS) && Exacting(ASCII, TOKENS)
  {
    TokenChars();
    TokensLaterWords();
    TokensExact();
    hide LaterWords, Exacting;
  }

  lemma GluedHere()
    ensures !Unglued(ASCII, TOKENS, "<E_1><", "E_2>")
  {
    TokenChars();
    var t := "<E_1><";
    TokenReplaced(t, 0, '1');
    TokenTaken(t, 0, '1');
    TokenTaken("<E_1><E_2>", 5, '2');
    hide KeyLen, Rewrite, Emit, Fold, LeftClear, RightClear, TailLen;
    assert "ab"[1] == 'b' && IsWordContext(ASCII, 'b') && !IsWordContext(ASCII, '>');
    assert Glues(ASCII, TOKENS.table, t, 0, 5);
    hide Glues;
    assert GluedEnd(ASCII, TOKENS, t, 5);
  }
}

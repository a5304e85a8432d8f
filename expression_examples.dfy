/**
 * Whole mapped expressions run through the recognizer, `exec` and the
 * constructor's specification, on their literal text.
 */
module ExpressionExamples {
  import opened Grammar
  import opened Patterns
  import opened MappedExpressions

  /** Slot `k` takes piece `k` at the start of `s`, and the later slots take
      the later pieces of what follows. */
  lemma TakeSlot(g: Pattern, ps: seq<string>, k: nat, s: string, rest: string)
    requires k < |g| && k < |ps| && s == ps[k] + rest
    requires Token(g[k], s) == Some(|ps[k]|)
    requires MatchAt(g[k + 1..], rest) == Some((ps[k + 1..], []))
    ensures MatchAt(g[k..], s) == Some((ps[k..], []))
  {
    assert s[..|ps[k]|] == ps[k] && s[|ps[k]|..] == rest;
    MatchAtFrom(g, k, s, |ps[k]|, ps[k + 1..], []);
    assert [ps[k]] + ps[k + 1..] == ps[k..];
  }

  /** The first slot takes the first piece of `s`, and the remaining slots
      the rest: the whole pattern matches `s`. */
  lemma TakeFirst(g: Pattern, ps: seq<string>, s: string, rest: string)
    requires g != [] && ps != [] && s == ps[0] + rest
    requires Token(g[0], s) == Some(|ps[0]|)
    requires MatchAt(g[1..], rest) == Some((ps[1..], []))
    ensures MatchAt(g, s) == Some((ps, []))
  {
    TakeSlot(g, ps, 0, s, rest);
    assert g[0..] == g && ps[0..] == ps;
  }

  /** The groups `exec` reports for a normal match, read off its pieces. */
  lemma NormalGroupsOf(ps: seq<string>)
    requires |ps| == |NormalPattern|
    ensures var g := NormalGroups(ps);
            g[2] == Captured(ps[2]) && g[3] == Captured(ps[4]) && g[4] == Some(ps[6]) &&
            g[5] == Captured(ps[8]) && g[6] == Captured(ps[10]) && g[7] == Captured(ps[12]) &&
            g[8] == Captured(ps[14]) && g[9] == Captured(ps[16]) && g[10] == Captured(ps[18])
  {
  }

  /** A pattern that starts with a required character does not match a text
      that does not start with it. */
  lemma FirstCharMissing(g: Pattern, c: char, s: string)
    requires g != [] && g[0] == Char(c) && (s == [] || s[0] != c)
    ensures MatchAt(g, s).None?
  {
  }

  /** The slots of the grouped regex from 9 on (the ` *` after `?` up to the
      closing `}`), which both normal examples below leave empty but for the
      `}`. `ClosingFrom<j>` matches the slots from `j` on against `}`, built
      up from the last slot. */
  const ClosingSlots: Pattern := NormalPattern[9..]

  /** The pieces these slots take from `}`. */
  const ClosingPieces: seq<string> := ["", "", "", "", "", "", "", "", "", "", "", "}"]

  lemma ClosingFrom0()
    ensures MatchAt(ClosingSlots[0..], "}") == Some((ClosingPieces[0..], []))
  {
    assert ClosingSlots[0] == Repeat(Space) && ClosingPieces[0] == "";
    assert "}" == "" + "}";
    assert Token(Repeat(Space), "}") == Some(0);
    ClosingFrom1();
    TakeSlot(ClosingSlots, ClosingPieces, 0, "}", "}");
  }

  lemma ClosingFrom1()
    ensures MatchAt(ClosingSlots[1..], "}") == Some((ClosingPieces[1..], []))
  {
    assert ClosingSlots[1] == DoubleQuoted && ClosingPieces[1] == "";
    assert "}" == "" + "}";
    assert Token(DoubleQuoted, "}") == Some(0);
    ClosingFrom2();
    TakeSlot(ClosingSlots, ClosingPieces, 1, "}", "}");
  }

  lemma ClosingFrom2()
    ensures MatchAt(ClosingSlots[2..], "}") == Some((ClosingPieces[2..], []))
  {
    assert ClosingSlots[2] == Repeat(Space) && ClosingPieces[2] == "";
    assert "}" == "" + "}";
    assert Token(Repeat(Space), "}") == Some(0);
    ClosingFrom3();
    TakeSlot(ClosingSlots, ClosingPieces, 2, "}", "}");
  }

  lemma ClosingFrom3()
    ensures MatchAt(ClosingSlots[3..], "}") == Some((ClosingPieces[3..], []))
  {
    assert ClosingSlots[3] == SingleQuoted && ClosingPieces[3] == "";
    assert "}" == "" + "}";
    assert Token(SingleQuoted, "}") == Some(0);
    ClosingFrom4();
    TakeSlot(ClosingSlots, ClosingPieces, 3, "}", "}");
  }

  lemma ClosingFrom4()
    ensures MatchAt(ClosingSlots[4..], "}") == Some((ClosingPieces[4..], []))
  {
    assert ClosingSlots[4] == Repeat(Space) && ClosingPieces[4] == "";
    assert "}" == "" + "}";
    assert Token(Repeat(Space), "}") == Some(0);
    ClosingFrom5();
    TakeSlot(ClosingSlots, ClosingPieces, 4, "}", "}");
  }

  lemma ClosingFrom5()
    ensures MatchAt(ClosingSlots[5..], "}") == Some((ClosingPieces[5..], []))
  {
    assert ClosingSlots[5] == Opt(':') && ClosingPieces[5] == "";
    assert "}" == "" + "}";
    assert Token(Opt(':'), "}") == Some(0);
    ClosingFrom6();
    TakeSlot(ClosingSlots, ClosingPieces, 5, "}", "}");
  }

  lemma ClosingFrom6()
    ensures MatchAt(ClosingSlots[6..], "}") == Some((ClosingPieces[6..], []))
  {
    assert ClosingSlots[6] == Repeat(Space) && ClosingPieces[6] == "";
    assert "}" == "" + "}";
    assert Token(Repeat(Space), "}") == Some(0);
    ClosingFrom7();
    TakeSlot(ClosingSlots, ClosingPieces, 6, "}", "}");
  }

  lemma ClosingFrom7()
    ensures MatchAt(ClosingSlots[7..], "}") == Some((ClosingPieces[7..], []))
  {
    assert ClosingSlots[7] == DoubleQuoted && ClosingPieces[7] == "";
    assert "}" == "" + "}";
    assert Token(DoubleQuoted, "}") == Some(0);
    ClosingFrom8();
    TakeSlot(ClosingSlots, ClosingPieces, 7, "}", "}");
  }

  lemma ClosingFrom8()
    ensures MatchAt(ClosingSlots[8..], "}") == Some((ClosingPieces[8..], []))
  {
    assert ClosingSlots[8] == Repeat(Space) && ClosingPieces[8] == "";
    assert "}" == "" + "}";
    assert Token(Repeat(Space), "}") == Some(0);
    ClosingFrom9();
    TakeSlot(ClosingSlots, ClosingPieces, 8, "}", "}");
  }

  lemma ClosingFrom9()
    ensures MatchAt(ClosingSlots[9..], "}") == Some((ClosingPieces[9..], []))
  {
    assert ClosingSlots[9] == SingleQuoted && ClosingPieces[9] == "";
    assert "}" == "" + "}";
    assert Token(SingleQuoted, "}") == Some(0);
    ClosingFrom10();
    TakeSlot(ClosingSlots, ClosingPieces, 9, "}", "}");
  }

  lemma ClosingFrom10()
    ensures MatchAt(ClosingSlots[10..], "}") == Some((ClosingPieces[10..], []))
  {
    assert ClosingSlots[10] == Repeat(Space) && ClosingPieces[10] == "";
    assert "}" == "" + "}";
    assert Token(Repeat(Space), "}") == Some(0);
    ClosingFrom11();
    TakeSlot(ClosingSlots, ClosingPieces, 10, "}", "}");
  }

  lemma ClosingFrom11()
    ensures MatchAt(ClosingSlots[11..], "}") == Some((ClosingPieces[11..], []))
  {
    assert ClosingSlots[11] == Char('}') && ClosingPieces[11] == "}";
    assert "}" == "}" + "";
    assert Token(Char('}'), "}") == Some(1);
    assert ClosingSlots[12..] == [] && ClosingPieces[12..] == [];
    assert MatchAt([], []) == Some(([], []));
    TakeSlot(ClosingSlots, ClosingPieces, 11, "}", "");
  }

  /** The text of a ternary with no key and no outcomes. */
  const TernaryOnlyText: string := "&{?}"

  /** The pieces the recognizer takes from `&{?}`, one per slot of the grouped
      regex. `TernaryOnlyFrom<k>` matches the slots from `k` on against the
      text they take, for `k` from 1 to 8; the slots from 9 on are the shared
      closing chain. `TernaryOnlyMatch` is the whole pattern. */
  const TernaryOnlyPieces: seq<string> := ["&", "{", "", "", "", "", "", "", "?", "", "", "", "", "", "", "", "", "", "", "", "}"]

  lemma TernaryOnlyMatch()
    ensures MatchAt(NormalPattern, TernaryOnlyText) == Some((TernaryOnlyPieces, []))
  {
    TernaryOnlyHead();
    TernaryOnlyFrom1();
    TakeFirst(NormalPattern, TernaryOnlyPieces, TernaryOnlyText, "{?}");
  }

  /** The first slot of the grouped regex takes the `&`. */
  lemma TernaryOnlyHead()
    ensures TernaryOnlyText == TernaryOnlyPieces[0] + "{?}"
    ensures Token(NormalPattern[0], TernaryOnlyText) == Some(|TernaryOnlyPieces[0]|)
  {
    assert NormalPattern[0] == Char('&') && TernaryOnlyPieces[0] == "&";
    assert TernaryOnlyText == "&" + "{?}";
  }

  lemma TernaryOnlyFrom1()
    ensures MatchAt(NormalPattern[1..], "{?}") == Some((TernaryOnlyPieces[1..], []))
  {
    assert NormalPattern[1] == Char('{') && TernaryOnlyPieces[1] == "{";
    assert "{?}" == "{" + "?}";
    assert Token(Char('{'), "{?}") == Some(1);
    TernaryOnlyFrom2();
    TakeSlot(NormalPattern, TernaryOnlyPieces, 1, "{?}", "?}");
  }

  lemma TernaryOnlyFrom2()
    ensures MatchAt(NormalPattern[2..], "?}") == Some((TernaryOnlyPieces[2..], []))
  {
    assert NormalPattern[2] == Opt('*') && TernaryOnlyPieces[2] == "";
    assert "?}" == "" + "?}";
    assert Token(Opt('*'), "?}") == Some(0);
    TernaryOnlyFrom3();
    TakeSlot(NormalPattern, TernaryOnlyPieces, 2, "?}", "?}");
  }

  lemma TernaryOnlyFrom3()
    ensures MatchAt(NormalPattern[3..], "?}") == Some((TernaryOnlyPieces[3..], []))
  {
    assert NormalPattern[3] == Repeat(Space) && TernaryOnlyPieces[3] == "";
    assert "?}" == "" + "?}";
    assert Token(Repeat(Space), "?}") == Some(0);
    TernaryOnlyFrom4();
    TakeSlot(NormalPattern, TernaryOnlyPieces, 3, "?}", "?}");
  }

  lemma TernaryOnlyFrom4()
    ensures MatchAt(NormalPattern[4..], "?}") == Some((TernaryOnlyPieces[4..], []))
  {
    assert NormalPattern[4] == PipeList && TernaryOnlyPieces[4] == "";
    assert "?}" == "" + "?}";
    assert Token(PipeList, "?}") == Some(0);
    TernaryOnlyFrom5();
    TakeSlot(NormalPattern, TernaryOnlyPieces, 4, "?}", "?}");
  }

  lemma TernaryOnlyFrom5()
    ensures MatchAt(NormalPattern[5..], "?}") == Some((TernaryOnlyPieces[5..], []))
  {
    assert NormalPattern[5] == Repeat(Space) && TernaryOnlyPieces[5] == "";
    assert "?}" == "" + "?}";
    assert Token(Repeat(Space), "?}") == Some(0);
    TernaryOnlyFrom6();
    TakeSlot(NormalPattern, TernaryOnlyPieces, 5, "?}", "?}");
  }

  lemma TernaryOnlyFrom6()
    ensures MatchAt(NormalPattern[6..], "?}") == Some((TernaryOnlyPieces[6..], []))
  {
    assert NormalPattern[6] == Key && TernaryOnlyPieces[6] == "";
    assert "?}" == "" + "?}";
    assert Token(Key, "?}") == Some(0);
    TernaryOnlyFrom7();
    TakeSlot(NormalPattern, TernaryOnlyPieces, 6, "?}", "?}");
  }

  lemma TernaryOnlyFrom7()
    ensures MatchAt(NormalPattern[7..], "?}") == Some((TernaryOnlyPieces[7..], []))
  {
    assert NormalPattern[7] == Repeat(Space) && TernaryOnlyPieces[7] == "";
    assert "?}" == "" + "?}";
    assert Token(Repeat(Space), "?}") == Some(0);
    TernaryOnlyFrom8();
    TakeSlot(NormalPattern, TernaryOnlyPieces, 7, "?}", "?}");
  }

  lemma TernaryOnlyFrom8()
    ensures MatchAt(NormalPattern[8..], "?}") == Some((TernaryOnlyPieces[8..], []))
  {
    assert NormalPattern[8] == Opt('?') && TernaryOnlyPieces[8] == "?";
    assert "?}" == "?" + "}";
    assert Token(Opt('?'), "?}") == Some(1);
    assert NormalPattern[9..] == ClosingSlots && TernaryOnlyPieces[9..] == ClosingPieces;
    assert ClosingSlots[0..] == ClosingSlots && ClosingPieces[0..] == ClosingPieces;
    ClosingFrom0();
    TakeSlot(NormalPattern, TernaryOnlyPieces, 8, "?}", "}");
  }

  /** `exec` of the grouped regex finds `&{?}` at offset 0. */
  lemma TernaryOnlyExec()
    ensures Exec(NormalPattern, TernaryOnlyText) == Some(Match(0, TernaryOnlyPieces))
    ensures ExecNormal(TernaryOnlyText) == Some(NormalGroups(TernaryOnlyPieces))
  {
    assert TernaryOnlyText[0..] == TernaryOnlyText;
    TernaryOnlyMatch();
    ExecFromFirst(NormalPattern, TernaryOnlyText, 0, 0);
  }

  /** The groups of `&{?}`' pieces: group 5 holds `?`, and neither true
      literal was captured. */
  lemma TernaryOnlyCaptures()
    ensures var g := NormalGroups(TernaryOnlyPieces); g[5] == Some("?") && g[6].None? && g[7].None?
  {
    assert TernaryOnlyPieces[8] == "?" && TernaryOnlyPieces[10] == "" && TernaryOnlyPieces[12] == "";
    NormalGroupsOf(TernaryOnlyPieces);
  }

  /** The groups `exec` of the grouped regex returns for `&{?}`. */
  lemma TernaryOnlyGroups()
    ensures ExecNormal(TernaryOnlyText).Some?
    ensures var g := ExecNormal(TernaryOnlyText).value; g[5] == Some("?") && g[6].None? && g[7].None?
  {
    TernaryOnlyCaptures();
    TernaryOnlyExec();
  }

  /** `&{?}` has neither a key nor a true outcome. The ternary check runs
      last, so its message is the one recorded. */
  lemma TernaryOnlyReport(locate: Locator)
    ensures var found := FoundExpr(TernaryOnlyText, 0, TernaryOnlyText);
            Build(found, locate).invalidExprMsg == Some(Located(found, locate, MissingTernaryTrueProblem))
  {
    TernaryOnlyGroups();
    TernaryProblemWins(FoundExpr(TernaryOnlyText, 0, TernaryOnlyText), locate);
  }

  /** The text of a plain expression with a dotted key. */
  const UserNameText: string := "&{user.name}"

  /** The pieces the recognizer takes from `&{user.name}`, one per slot of the
      grouped regex. `UserNameFrom<k>` matches the slots from `k` on against
      the text they take, for `k` from 1 to 8; the slots from 9 on are the
      shared closing chain. `UserNameMatch` is the whole pattern. */
  const UserNamePieces: seq<string> := ["&", "{", "", "", "", "", "user.name", "", "", "", "", "", "", "", "", "", "", "", "", "", "}"]

  lemma UserNameMatch()
    ensures MatchAt(NormalPattern, UserNameText) == Some((UserNamePieces, []))
  {
    UserNameHead();
    UserNameFrom1();
    TakeFirst(NormalPattern, UserNamePieces, UserNameText, "{user.name}");
  }

  /** The first slot of the grouped regex takes the `&`. */
  lemma UserNameHead()
    ensures UserNameText == UserNamePieces[0] + "{user.name}"
    ensures Token(NormalPattern[0], UserNameText) == Some(|UserNamePieces[0]|)
  {
    assert NormalPattern[0] == Char('&') && UserNamePieces[0] == "&";
    assert UserNameText == "&" + "{user.name}";
  }

  lemma UserNameFrom1()
    ensures MatchAt(NormalPattern[1..], "{user.name}") == Some((UserNamePieces[1..], []))
  {
    assert NormalPattern[1] == Char('{') && UserNamePieces[1] == "{";
    assert "{user.name}" == "{" + "user.name}";
    assert Token(Char('{'), "{user.name}") == Some(1);
    UserNameFrom2();
    TakeSlot(NormalPattern, UserNamePieces, 1, "{user.name}", "user.name}");
  }

  lemma UserNameFrom2()
    ensures MatchAt(NormalPattern[2..], "user.name}") == Some((UserNamePieces[2..], []))
  {
    assert NormalPattern[2] == Opt('*') && UserNamePieces[2] == "";
    assert "user.name}" == "" + "user.name}";
    assert Token(Opt('*'), "user.name}") == Some(0);
    UserNameFrom3();
    TakeSlot(NormalPattern, UserNamePieces, 2, "user.name}", "user.name}");
  }

  lemma UserNameFrom3()
    ensures MatchAt(NormalPattern[3..], "user.name}") == Some((UserNamePieces[3..], []))
  {
    assert NormalPattern[3] == Repeat(Space) && UserNamePieces[3] == "";
    assert "user.name}" == "" + "user.name}";
    assert Token(Repeat(Space), "user.name}") == Some(0);
    UserNameFrom4();
    TakeSlot(NormalPattern, UserNamePieces, 3, "user.name}", "user.name}");
  }

  lemma UserNameFrom4()
    ensures MatchAt(NormalPattern[4..], "user.name}") == Some((UserNamePieces[4..], []))
  {
    assert NormalPattern[4] == PipeList && UserNamePieces[4] == "";
    assert "user.name}" == "" + "user.name}";
    assert Token(PipeList, "user.name}") == Some(0);
    UserNameFrom5();
    TakeSlot(NormalPattern, UserNamePieces, 4, "user.name}", "user.name}");
  }

  lemma UserNameFrom5()
    ensures MatchAt(NormalPattern[5..], "user.name}") == Some((UserNamePieces[5..], []))
  {
    assert NormalPattern[5] == Repeat(Space) && UserNamePieces[5] == "";
    assert "user.name}" == "" + "user.name}";
    assert Token(Repeat(Space), "user.name}") == Some(0);
    UserNameFrom6();
    TakeSlot(NormalPattern, UserNamePieces, 5, "user.name}", "user.name}");
  }

  lemma UserNameFrom6()
    ensures MatchAt(NormalPattern[6..], "user.name}") == Some((UserNamePieces[6..], []))
  {
    assert NormalPattern[6] == Key && UserNamePieces[6] == "user.name";
    assert "user.name}" == "user.name" + "}";
    RunLengthOf("user.name", "}", KeyChars);
    assert Token(Key, "user.name}") == Some(9);
    UserNameFrom7();
    TakeSlot(NormalPattern, UserNamePieces, 6, "user.name}", "}");
  }

  lemma UserNameFrom7()
    ensures MatchAt(NormalPattern[7..], "}") == Some((UserNamePieces[7..], []))
  {
    assert NormalPattern[7] == Repeat(Space) && UserNamePieces[7] == "";
    assert "}" == "" + "}";
    assert Token(Repeat(Space), "}") == Some(0);
    UserNameFrom8();
    TakeSlot(NormalPattern, UserNamePieces, 7, "}", "}");
  }

  lemma UserNameFrom8()
    ensures MatchAt(NormalPattern[8..], "}") == Some((UserNamePieces[8..], []))
  {
    assert NormalPattern[8] == Opt('?') && UserNamePieces[8] == "";
    assert "}" == "" + "}";
    assert Token(Opt('?'), "}") == Some(0);
    assert NormalPattern[9..] == ClosingSlots && UserNamePieces[9..] == ClosingPieces;
    assert ClosingSlots[0..] == ClosingSlots && ClosingPieces[0..] == ClosingPieces;
    ClosingFrom0();
    TakeSlot(NormalPattern, UserNamePieces, 8, "}", "}");
  }

  /** `exec` of the grouped regex finds `&{user.name}` at offset 0. */
  lemma UserNameExec()
    ensures Exec(NormalPattern, UserNameText) == Some(Match(0, UserNamePieces))
  {
    assert UserNameText[0..] == UserNameText;
    UserNameMatch();
    ExecFromFirst(NormalPattern, UserNameText, 0, 0);
  }

  /** The captures of `&{user.name}`: the key `user.name` and nothing else. */
  lemma UserNameCaptures()
    ensures CapturesOf(UserNamePieces) == NormalCaptures(false, None, "user.name", false, None, None, false, None, None)
  {
    assert UserNamePieces[2] == "" && UserNamePieces[4] == "" && UserNamePieces[6] == "user.name";
    assert UserNamePieces[8] == "" && UserNamePieces[10] == "" && UserNamePieces[12] == "";
    assert UserNamePieces[14] == "" && UserNamePieces[16] == "" && UserNamePieces[18] == "";
  }

  /** `&{user.name}` is a plain normal expression with key `user.name`,
      spanning offsets 0 to 12, with no diagnostic. */
  lemma UserNameBuild(locate: Locator)
    ensures Build(FoundExpr(UserNameText, 0, UserNameText), locate) ==
            ExprState(Some(0), Some(12), None, Some("user.name"), Some(false), None, None, false, Some(false), None)
  {
    assert |UserNameText| == 12;
    UserNameCaptures();
    UserNameExec();
  }

  /** The text of an iterated expression over `items`. */
  const ItemsText: string := "&{#items}"

  /** The pieces the recognizer takes from `&{#items}`, one per slot of the
      iterated regex. `ItemsFrom<k>` matches the slots from `k` on against the
      text they take, built up from the last slot; `ItemsMatch` is the whole
      pattern. */
  const ItemsPieces: seq<string> := ["&", "{", "#", "items", "}"]

  lemma ItemsMatch()
    ensures MatchAt(IteratedPattern, "&{#items}") == Some((ItemsPieces, []))
  {
    assert IteratedPattern[0] == Char('&') && ItemsPieces[0] == "&";
    assert "&{#items}" == "&" + "{#items}";
    assert Token(Char('&'), "&{#items}") == Some(1);
    assert IteratedPattern[0..] == IteratedPattern && ItemsPieces[0..] == ItemsPieces;
    ItemsFrom1();
    TakeSlot(IteratedPattern, ItemsPieces, 0, "&{#items}", "{#items}");
  }

  lemma ItemsFrom1()
    ensures MatchAt(IteratedPattern[1..], "{#items}") == Some((ItemsPieces[1..], []))
  {
    assert IteratedPattern[1] == Char('{') && ItemsPieces[1] == "{";
    assert "{#items}" == "{" + "#items}";
    assert Token(Char('{'), "{#items}") == Some(1);
    ItemsFrom2();
    TakeSlot(IteratedPattern, ItemsPieces, 1, "{#items}", "#items}");
  }

  lemma ItemsFrom2()
    ensures MatchAt(IteratedPattern[2..], "#items}") == Some((ItemsPieces[2..], []))
  {
    assert IteratedPattern[2] == Char('#') && ItemsPieces[2] == "#";
    assert "#items}" == "#" + "items}";
    assert Token(Char('#'), "#items}") == Some(1);
    ItemsFrom3();
    TakeSlot(IteratedPattern, ItemsPieces, 2, "#items}", "items}");
  }

  lemma ItemsFrom3()
    ensures MatchAt(IteratedPattern[3..], "items}") == Some((ItemsPieces[3..], []))
  {
    assert IteratedPattern[3] == Key && ItemsPieces[3] == "items";
    assert "items}" == "items" + "}";
    RunLengthOf("items", "}", KeyChars);
    assert Token(Key, "items}") == Some(5);
    ItemsFrom4();
    TakeSlot(IteratedPattern, ItemsPieces, 3, "items}", "}");
  }

  lemma ItemsFrom4()
    ensures MatchAt(IteratedPattern[4..], "}") == Some((ItemsPieces[4..], []))
  {
    assert IteratedPattern[4] == Char('}') && ItemsPieces[4] == "}";
    assert "}" == "}" + "";
    assert Token(Char('}'), "}") == Some(1);
    assert IteratedPattern[5..] == [] && ItemsPieces[5..] == [];
    assert MatchAt([], []) == Some(([], []));
    TakeSlot(IteratedPattern, ItemsPieces, 4, "}", "");
  }

  /** The grouped regex matches `&{#items}` at no offset: at offset 0 the
      iterated pattern matches instead, and no later offset starts with `&`. */
  lemma ItemsNotNormal()
    ensures Exec(NormalPattern, ItemsText).None?
  {
    assert ItemsText[0..] == "&{#items}";
    ItemsMatch();
    forall q | 0 <= q <= |ItemsText| ensures MatchAt(NormalPattern, ItemsText[q..]).None? {
      if q == 0 {
        if MatchAt(NormalPattern, ItemsText[q..]).Some? {
          NormalExcludesIterated(ItemsText[q..]);
        }
      } else {
        assert ItemsText[q..] == [] || ItemsText[q..][0] == ItemsText[q] != '&';
        FirstCharMissing(NormalPattern, '&', ItemsText[q..]);
      }
    }
    ExecFromNone(NormalPattern, ItemsText, 0);
  }

  /** `exec` of the iterated regex finds `&{#items}` at offset 0. */
  lemma ItemsExec()
    ensures Exec(IteratedPattern, ItemsText) == Some(Match(0, ItemsPieces))
  {
    assert ItemsText[0..] == "&{#items}";
    ItemsMatch();
    ExecFromFirst(IteratedPattern, ItemsText, 0, 0);
  }

  /** `&{#items}` is classified as iterated, with key `items`. */
  lemma ItemsClassify()
    ensures Classify(ItemsText) == Iterated("items")
  {
    assert ItemsPieces[3] == "items";
    ItemsNotNormal();
    ItemsExec();
  }

  /** `&{#items}` is an iterated expression with key `items`, spanning
      offsets 0 to 9, with no diagnostic. */
  lemma ItemsBuild(locate: Locator)
    ensures Build(FoundExpr(ItemsText, 0, ItemsText), locate) ==
            ExprState(Some(0), Some(9), None, Some("items"), None, None, None, false, Some(true), None)
  {
    var found := FoundExpr(ItemsText, 0, ItemsText);
    var st := ExprState(Some(0), Some(9), None, Some("items"), None, None, None, false, Some(true), None);
    assert |ItemsText| == 9;
    assert Fields(found, Iterated("items")) == st && MissingData(st).None?;
    ItemsClassify();
  }
}

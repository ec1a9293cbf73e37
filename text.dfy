/** `stripHtml` (`src/lib/text.ts`): turns an HTML fragment from a provider into
    plain text in three passes: every tag becomes a space, six character entities
    are decoded one after the other, and runs of whitespace become one space
    before the result is trimmed. The regular expressions are written out as
    scans over the string. */
module HtmlText {
  import opened Collections
  import opened Strings

  // ---------------------------------------------------------------------------
  // /<[^>]*>/g -> ' '
  // ---------------------------------------------------------------------------

  /** Index of the first `>` in `s`, or `|s|` when there is none. */
  function TagEnd(s: string): (k: nat)
    ensures k <= |s|
    ensures '>' !in s[..k]
    ensures k < |s| ==> s[k] == '>'
  {
    if s == [] || s[0] == '>' then 0 else 1 + TagEnd(s[1..])
  }

  /** Each `<` followed later by a `>` starts a tag that runs to the first such
      `>` and becomes one space; a `<` with no `>` after it is kept. */
  function RemoveTags(s: string): (r: string)
    ensures |r| <= |s|
    decreases |s|
  {
    if s == [] then []
    else if s[0] == '<' && TagEnd(s[1..]) < |s[1..]| then " " + RemoveTags(s[1..][TagEnd(s[1..]) + 1..])
    else [s[0]] + RemoveTags(s[1..])
  }

  /** No `<` in `s` has a `>` somewhere after it. */
  predicate NoTagLeft(s: string) {
    forall i, j :: 0 <= i < j < |s| && s[i] == '<' ==> s[j] != '>'
  }

  /** After the first pass no tag is left. */
  lemma {:induction false} RemoveTagsLeavesNoTag(s: string)
    ensures NoTagLeft(RemoveTags(s))
    decreases |s|
  {
    if s != [] {
      var t := s[1..];
      if s[0] == '<' && TagEnd(t) < |t| {
        RemoveTagsLeavesNoTag(t[TagEnd(t) + 1..]);
        NoTagAfterTag(s);
      } else {
        RemoveTagsLeavesNoTag(t);
        NoTagAfterChar(s);
      }
    }
  }

  /** A tag becomes a space in front of a tail with no tag left. */
  lemma NoTagAfterTag(s: string)
    requires s != [] && s[0] == '<' && TagEnd(s[1..]) < |s[1..]|
    requires NoTagLeft(RemoveTags(s[1..][TagEnd(s[1..]) + 1..]))
    ensures NoTagLeft(RemoveTags(s))
  {
    RemoveTagsAtTag(s);
    SpaceThenNoTag(RemoveTags(s[1..][TagEnd(s[1..]) + 1..]));
  }

  /** A kept character in front of a tail with no tag left leaves no tag. */
  lemma NoTagAfterChar(s: string)
    requires s != [] && !(s[0] == '<' && TagEnd(s[1..]) < |s[1..]|)
    requires NoTagLeft(RemoveTags(s[1..]))
    ensures NoTagLeft(RemoveTags(s))
  {
    var t := s[1..];
    if s[0] == '<' {
      NoCloseInTail(t);
      NoCloseKeepsText(t);
    }
    RemoveTagsAtChar(s);
    CharThenNoTag(s[0], RemoveTags(t));
  }

  lemma RemoveTagsAtTag(s: string)
    requires s != [] && s[0] == '<' && TagEnd(s[1..]) < |s[1..]|
    ensures RemoveTags(s) == " " + RemoveTags(s[1..][TagEnd(s[1..]) + 1..])
  {
  }

  lemma RemoveTagsAtChar(s: string)
    requires s != [] && !(s[0] == '<' && TagEnd(s[1..]) < |s[1..]|)
    ensures RemoveTags(s) == [s[0]] + RemoveTags(s[1..])
  {
  }

  lemma NoCloseInTail(t: string)
    requires TagEnd(t) == |t|
    ensures '>' !in t
  {
    assert t[..TagEnd(t)] == t;
  }

  lemma SpaceThenNoTag(rest: string)
    requires NoTagLeft(rest)
    ensures NoTagLeft(" " + rest)
  {
    var r := " " + rest;
    forall i, j | 0 <= i < j < |r| && r[i] == '<' ensures r[j] != '>' {
      assert r[i] == rest[i - 1] && r[j] == rest[j - 1];
    }
  }

  lemma CharThenNoTag(c: char, rest: string)
    requires NoTagLeft(rest)
    requires c == '<' ==> '>' !in rest
    ensures NoTagLeft([c] + rest)
  {
    var r := [c] + rest;
    forall i, j | 0 <= i < j < |r| && r[i] == '<' ensures r[j] != '>' {
      assert r[j] == rest[j - 1];
      if i > 0 {
        assert r[i] == rest[i - 1];
      } else {
        assert rest[j - 1] in rest;
      }
    }
  }

  /** Text without any `>` has no tag: the pass keeps it as it is, `<` included. */
  lemma {:induction false} NoCloseKeepsText(s: string)
    requires '>' !in s
    ensures RemoveTags(s) == s
    decreases |s|
  {
    if s != [] {
      assert '>' !in s[1..];
      NoCloseKeepsText(s[1..]);
    }
  }

  /** A tag `<t>` with no `>` inside becomes one space, and the scan goes on after it. */
  lemma TagBecomesSpace(t: string, rest: string)
    requires '>' !in t
    ensures RemoveTags("<" + t + ">" + rest) == " " + RemoveTags(rest)
  {
    var s := "<" + t + ">" + rest;
    assert s[1..] == t + ">" + rest;
    TagEndAt(t, rest);
    assert s[1..][|t| + 1..] == rest;
  }

  lemma {:induction false} TagEndAt(t: string, rest: string)
    requires '>' !in t
    ensures TagEnd(t + ">" + rest) == |t|
  {
    if t != [] {
      assert (t + ">" + rest)[1..] == t[1..] + ">" + rest;
      assert t[0] in t;
      TagEndAt(t[1..], rest);
    }
  }

  // ---------------------------------------------------------------------------
  // Entities: .replace(/&name;/gi, c), six times
  // ---------------------------------------------------------------------------

  /** `s` starts with the lower-case literal `pat`, letters matched in either case. */
  predicate StartsWithCI(s: string, pat: string) {
    |pat| <= |s| && ToLower(s[..|pat|]) == pat
  }

  /** `s.replace(/pat/gi, rep)` for a literal lower-case `pat`: scanning left to
      right, each match is replaced and the scan resumes after it. */
  function ReplaceAllCI(s: string, pat: string, rep: string): string
    requires pat != []
    decreases |s|
  {
    if s == [] then []
    else if StartsWithCI(s, pat) then rep + ReplaceAllCI(s[|pat|..], pat, rep)
    else [s[0]] + ReplaceAllCI(s[1..], pat, rep)
  }

  /** A replacement no longer than the pattern never lengthens the text. */
  lemma {:induction false} ReplaceAllCINeverLonger(s: string, pat: string, rep: string)
    requires pat != [] && |rep| <= |pat|
    ensures |ReplaceAllCI(s, pat, rep)| <= |s|
    decreases |s|
  {
    if s != [] {
      if StartsWithCI(s, pat) {
        ReplaceAllCINeverLonger(s[|pat|..], pat, rep);
      } else {
        ReplaceAllCINeverLonger(s[1..], pat, rep);
      }
    }
  }

  /** The six entities, in the order they are decoded. */
  function DecodeEntities(s: string): (r: string)
    ensures |r| <= |s|
  {
    var s1 := ReplaceAllCI(s, "&nbsp;", " ");
    var s2 := ReplaceAllCI(s1, "&quot;", "\"");
    var s3 := ReplaceAllCI(s2, "&#39;", "'");
    var s4 := ReplaceAllCI(s3, "&amp;", "&");
    var s5 := ReplaceAllCI(s4, "&lt;", "<");
    ReplaceAllCINeverLonger(s, "&nbsp;", " ");
    ReplaceAllCINeverLonger(s1, "&quot;", "\"");
    ReplaceAllCINeverLonger(s2, "&#39;", "'");
    ReplaceAllCINeverLonger(s3, "&amp;", "&");
    ReplaceAllCINeverLonger(s4, "&lt;", "<");
    ReplaceAllCINeverLonger(s5, "&gt;", ">");
    ReplaceAllCI(s5, "&gt;", ">")
  }

  /** Text without `&` has no entity and is left alone. */
  lemma {:induction false} ReplaceAllCIWithoutAmp(s: string, pat: string, rep: string)
    requires pat != [] && pat[0] == '&' && '&' !in s
    ensures ReplaceAllCI(s, pat, rep) == s
    decreases |s|
  {
    if s != [] {
      assert s[0] != '&' by { assert s[0] in s; }
      assert !StartsWithCI(s, pat) by {
        if |pat| <= |s| { assert ToLower(s[..|pat|])[0] == LowerChar(s[0]); }
      }
      assert '&' !in s[1..];
      ReplaceAllCIWithoutAmp(s[1..], pat, rep);
    }
  }

  /** Decoding leaves text without `&` unchanged. */
  lemma DecodeWithoutAmp(s: string)
    requires '&' !in s
    ensures DecodeEntities(s) == s
  {
    ReplaceAllCIWithoutAmp(s, "&nbsp;", " ");
    ReplaceAllCIWithoutAmp(s, "&quot;", "\"");
    ReplaceAllCIWithoutAmp(s, "&#39;", "'");
    ReplaceAllCIWithoutAmp(s, "&amp;", "&");
    ReplaceAllCIWithoutAmp(s, "&lt;", "<");
    ReplaceAllCIWithoutAmp(s, "&gt;", ">");
  }

  // ---------------------------------------------------------------------------
  // .replace(/\s+/g, ' ').trim()
  // ---------------------------------------------------------------------------

  /** Each maximal run of whitespace becomes one space. */
  function CollapseWhitespace(s: string): (r: string)
    ensures |r| <= |s|
    ensures r != [] ==> s != [] && (IsJsWhitespace(r[0]) <==> IsJsWhitespace(s[0]))
    ensures r == [] ==> s == []
    ensures forall i :: 0 <= i < |r| && IsJsWhitespace(r[i]) ==> r[i] == ' '
    ensures forall i :: 0 <= i < |r| - 1 ==> !(IsJsWhitespace(r[i]) && IsJsWhitespace(r[i + 1]))
    decreases |s|
  {
    if s == [] then []
    else if IsJsWhitespace(s[0]) then
      var rest := CollapseWhitespace(TrimStart(s));
      assert TrimStart(s) == [] || !IsJsWhitespace(TrimStart(s)[0]);
      " " + rest
    else [s[0]] + CollapseWhitespace(s[1..])
  }

  /** A character the whitespace passes never touch. */
  predicate IsText(c: char) {
    !IsJsWhitespace(c)
  }

  /** Collapsing keeps every other character, in order: only whitespace runs are
      rewritten. */
  lemma {:induction false} CollapseKeepsText(s: string)
    ensures Filter(CollapseWhitespace(s), IsText) == Filter(s, IsText)
    decreases |s|
  {
    if s != [] {
      if IsJsWhitespace(s[0]) {
        var t := TrimStart(s);
        CollapseKeepsText(t);
        CollapseRun(s);
        SkipLeadingWhitespace(s);
        SkipWhitespace([' '], CollapseWhitespace(t));
      } else {
        CollapseKeepsText(s[1..]);
        CollapseText(s);
      }
    }
  }

  /** A leading run of whitespace becomes one space before the rest. */
  lemma CollapseRun(s: string)
    requires s != [] && IsJsWhitespace(s[0])
    ensures CollapseWhitespace(s) == [' '] + CollapseWhitespace(TrimStart(s))
  {
    assert " " == [' '];
  }

  /** A leading character that is not whitespace is kept by both passes. */
  lemma CollapseText(s: string)
    requires s != [] && !IsJsWhitespace(s[0])
    ensures CollapseWhitespace(s) == [s[0]] + CollapseWhitespace(s[1..])
    ensures Filter(s, IsText) == [s[0]] + Filter(s[1..], IsText)
    ensures Filter([s[0]] + CollapseWhitespace(s[1..]), IsText) == [s[0]] + Filter(CollapseWhitespace(s[1..]), IsText)
  {
    FilterConcat([s[0]], CollapseWhitespace(s[1..]), IsText);
  }

  /** Leading whitespace holds no text. */
  lemma SkipLeadingWhitespace(s: string)
    ensures Filter(s, IsText) == Filter(TrimStart(s), IsText)
  {
    var t := TrimStart(s);
    var w := s[..|s| - |t|];
    assert s == w + t;
    SkipWhitespace(w, t);
  }

  /** Whitespace in front changes nothing the text filter sees. */
  lemma SkipWhitespace(w: string, t: string)
    requires AllWhitespace(w)
    ensures Filter(w + t, IsText) == Filter(t, IsText)
  {
    FilterConcat(w, t, IsText);
    NoTextInWhitespace(w);
  }

  /** Whitespace holds no text. */
  lemma {:induction false} NoTextInWhitespace(w: string)
    requires AllWhitespace(w)
    ensures Filter(w, IsText) == []
  {
    if w != [] {
      assert AllWhitespace(w[1..]) by {
        forall i | 0 <= i < |w[1..]| ensures IsJsWhitespace(w[1..][i]) {
          assert w[1..][i] == w[i + 1];
        }
      }
      NoTextInWhitespace(w[1..]);
    }
  }

  /** `stripHtml`: no input or an empty one gives the empty string; otherwise the
      three passes in turn. */
  function StripHtml(input: Option<string>): (r: string)
    ensures input.None? || input == Some("") ==> r == ""
  {
    if input.None? || input.value == "" then ""
    else Trim(CollapseWhitespace(DecodeEntities(RemoveTags(input.value))))
  }

  /** Whitespace only as single spaces, never two in a row. */
  predicate Collapsed(s: string) {
    && (forall i :: 0 <= i < |s| && IsJsWhitespace(s[i]) ==> s[i] == ' ')
    && (forall i :: 0 <= i < |s| - 1 ==> !(IsJsWhitespace(s[i]) && IsJsWhitespace(s[i + 1])))
  }

  lemma TrimKeepsCollapsed(c: string)
    requires Collapsed(c)
    ensures Collapsed(Trim(c))
  {
    CollapsedPiece(c, TrimOffset(c), Trim(c));
  }

  /** A contiguous piece of collapsed text is collapsed. */
  lemma CollapsedPiece(c: string, k: nat, r: string)
    requires Collapsed(c)
    requires k + |r| <= |c| && forall i :: 0 <= i < |r| ==> r[i] == c[k + i]
    ensures Collapsed(r)
  {
    forall i | 0 <= i < |r| - 1 ensures !(IsJsWhitespace(r[i]) && IsJsWhitespace(r[i + 1])) {
      assert r[i] == c[k + i] && r[i + 1] == c[k + i + 1];
    }
  }

  /** The output has no whitespace at either end, and inside it only single
      spaces. */
  lemma StripHtmlClean(input: Option<string>)
    ensures var r := StripHtml(input);
      && (r != [] ==> !IsJsWhitespace(r[0]) && !IsJsWhitespace(r[|r| - 1]))
      && Collapsed(r)
  {
    if input.Some? && input.value != "" {
      var a := RemoveTags(input.value);
      var b := DecodeEntities(a);
      var c := CollapseWhitespace(b);
      CollapseGivesCollapsed(b);
      TrimClean(c);
      StripHtmlPasses(input.value, a, b, c);
    }
  }

  lemma CollapseGivesCollapsed(b: string)
    ensures Collapsed(CollapseWhitespace(b))
  {
  }

  /** Trimming collapsed text leaves it collapsed and clean at both ends. */
  lemma TrimClean(c: string)
    requires Collapsed(c)
    ensures var r := Trim(c);
      && (r != [] ==> !IsJsWhitespace(r[0]) && !IsJsWhitespace(r[|r| - 1]))
      && Collapsed(r)
  {
    TrimKeepsCollapsed(c);
  }

  /** Collapsed text is left as it is by the whitespace pass. */
  lemma {:induction false} CollapsedUnchanged(s: string)
    requires Collapsed(s)
    ensures CollapseWhitespace(s) == s
    decreases |s|
  {
    if s != [] {
      CollapsedTail(s);
      CollapsedUnchanged(s[1..]);
      if IsJsWhitespace(s[0]) {
        CollapsedAfterSpace(s);
        assert s == " " + s[1..];
      } else {
        assert s == [s[0]] + s[1..];
      }
    }
  }

  lemma CollapsedTail(s: string)
    requires Collapsed(s) && s != []
    ensures Collapsed(s[1..])
  {
    forall i | 0 <= i < |s[1..]| - 1
      ensures !(IsJsWhitespace(s[1..][i]) && IsJsWhitespace(s[1..][i + 1]))
    {
      assert s[1..][i] == s[i + 1] && s[1..][i + 1] == s[i + 2];
    }
  }

  /** In collapsed text a space is followed by a non-space, so trimming the
      start removes exactly that space. */
  lemma CollapsedAfterSpace(s: string)
    requires Collapsed(s) && s != [] && IsJsWhitespace(s[0])
    ensures s[0] == ' ' && TrimStart(s) == s[1..]
  {
    assert s[1..] == [] || !IsJsWhitespace(s[1]);
    assert s[1..] == [] || s[1..][0] == s[1];
  }

  /** Text with no whitespace at either end is its own trim. */
  lemma TrimNoEdge(s: string)
    requires s != [] ==> !IsJsWhitespace(s[0]) && !IsJsWhitespace(s[|s| - 1])
    ensures Trim(s) == s
  {
    assert TrimStart(s) == s;
    assert TrimEnd(s) == s;
  }

  /** Text that is already plain, with no `>`, no `&`, single inner spaces and
      none at the ends, comes out unchanged; a lone `<` survives. */
  lemma PlainTextUnchanged(s: string)
    requires '>' !in s && '&' !in s && Collapsed(s)
    requires s != [] ==> !IsJsWhitespace(s[0]) && !IsJsWhitespace(s[|s| - 1])
    ensures StripHtml(Some(s)) == s
  {
    if s != [] {
      NoCloseKeepsText(s);
      DecodeWithoutAmp(s);
      CollapsedUnchanged(s);
      TrimNoEdge(s);
      StripHtmlPasses(s, s, s, s);
    }
  }

  /** The three passes, named one by one. */
  lemma StripHtmlPasses(s: string, a: string, b: string, c: string)
    requires s != [] && RemoveTags(s) == a && DecodeEntities(a) == b && CollapseWhitespace(b) == c
    ensures StripHtml(Some(s)) == Trim(c)
  {
  }

  /** Tags become spaces that the trim then removes: `<p>c</p>` gives `c` for any
      character `c` that is not whitespace and not `<`, `>` or `&`. */
  lemma StripParagraph(s: string, c: char)
    requires s == "<p>" + [c] + "</p>"
    requires !IsJsWhitespace(c) && c != '<' && c != '>' && c != '&'
    ensures StripHtml(Some(s)) == [c]
  {
    var spaced := [' ', c, ' '];
    ParagraphTags(s, c);
    assert '&' !in spaced;
    DecodeWithoutAmp(spaced);
    CollapsedSpaced(c);
    CollapsedUnchanged(spaced);
    TrimSpaced(c);
    StripHtmlPasses(s, spaced, spaced, spaced);
  }

  lemma ParagraphTags(s: string, c: char)
    requires s == "<p>" + [c] + "</p>"
    requires c != '<'
    ensures RemoveTags(s) == [' ', c, ' ']
  {
    ParagraphOpen(s, [c] + "</p>");
    ParagraphChar(c, "</p>");
    ParagraphClose();
  }

  lemma ParagraphOpen(s: string, inner: string)
    requires s == "<p>" + inner
    ensures RemoveTags(s) == " " + RemoveTags(inner)
  {
    assert s == "<" + "p" + ">" + inner;
    TagBecomesSpace("p", inner);
  }

  lemma ParagraphChar(c: char, rest: string)
    requires c != '<'
    ensures RemoveTags([c] + rest) == [c] + RemoveTags(rest)
  {
    assert ([c] + rest)[1..] == rest;
  }

  lemma ParagraphClose()
    ensures RemoveTags("</p>") == " "
  {
    var e: string := [];
    assert "</p>" == "<" + "/p" + ">" + e;
    TagBecomesSpace("/p", e);
  }

  lemma CollapsedSpaced(c: char)
    requires !IsJsWhitespace(c)
    ensures Collapsed([' ', c, ' '])
  {
    var r := [' ', c, ' '];
    assert forall i :: 0 <= i < |r| ==> r[i] == if i == 1 then c else ' ';
  }

  lemma TrimSpaced(c: char)
    requires !IsJsWhitespace(c)
    ensures Trim([' ', c, ' ']) == [c]
  {
    var s, t := [' ', c, ' '], [c, ' '];
    assert s[1..] == t && t[..1] == [c];
    TrimStartSkip(s);
    TrimStartStop(t);
    TrimEndSkip(t);
    TrimEndStop([c]);
  }

  /** Entities are decoded one after the other, so `&amp;lt;` comes out as `<`. */
  lemma StripDoubleEncoded(s: string)
    requires s == "&amp;lt;"
    ensures StripHtml(Some(s)) == "<"
  {
    NoCloseKeepsText(s);
    SampleAmpLt(s);
    PlainLt();
    StripHtmlPasses(s, s, "<", "<");
  }

  lemma PlainLt()
    ensures CollapseWhitespace("<") == "<" && Trim("<") == "<"
  {
    CollapsedUnchanged("<");
    TrimNoEdge("<");
  }

  /** Entity names are matched in either case. */
  lemma StripUpperEntity(s: string)
    requires s == "x &AMP; y"
    ensures StripHtml(Some(s)) == "x & y"
  {
    NoCloseKeepsText(s);
    SampleUpperAmp(s);
    PlainXAmpY();
    StripHtmlPasses(s, s, "x & y", "x & y");
  }

  lemma PlainXAmpY()
    ensures CollapseWhitespace("x & y") == "x & y" && Trim("x & y") == "x & y"
  {
    var d := "x & y";
    CollapsedSpacedTriple('x', '&', 'y');
    CollapsedUnchanged(d);
    TrimNoEdge(d);
  }

  lemma CollapsedSpacedTriple(a: char, b: char, c: char)
    requires !IsJsWhitespace(a) && !IsJsWhitespace(b) && !IsJsWhitespace(c)
    ensures Collapsed([a, ' ', b, ' ', c])
  {
    var r := [a, ' ', b, ' ', c];
    assert forall i :: 0 <= i < |r| ==> r[i] == if i == 0 then a else if i == 2 then b else if i == 4 then c else ' ';
  }

  /** A mismatch at position `k` rules a match out. */
  lemma MismatchAt(s: string, pat: string, k: nat)
    requires k < |pat| && k < |s| && LowerChar(s[k]) != pat[k]
    ensures !StartsWithCI(s, pat)
  {
    if |pat| <= |s| {
      assert ToLower(s[..|pat|])[k] == LowerChar(s[k]);
    }
  }

  /** Text matching `pat` letter by letter, in either case, matches. */
  lemma MatchAt(s: string, pat: string)
    requires |pat| <= |s| && forall k :: 0 <= k < |pat| ==> LowerChar(s[k]) == pat[k]
    ensures StartsWithCI(s, pat)
  {
    assert ToLower(s[..|pat|]) == pat;
  }

  /** A string whose one `&` is its first character, where the entity does not
      match, is left alone. */
  lemma LeadingAmpMismatch(s: string, pat: string, rep: string, k: nat)
    requires pat != [] && pat[0] == '&' && s != [] && '&' !in s[1..]
    requires k < |pat| && k < |s| && LowerChar(s[k]) != pat[k]
    ensures ReplaceAllCI(s, pat, rep) == s
  {
    MismatchAt(s, pat, k);
    ReplaceAllCIWithoutAmp(s[1..], pat, rep);
  }

  /** A string starting with the entity itself, and no other `&`. */
  lemma LeadingEntity(pat: string, rest: string, rep: string)
    requires pat != [] && pat[0] == '&' && '&' !in rest
    requires forall k :: 0 <= k < |pat| ==> LowerChar(pat[k]) == pat[k]
    ensures ReplaceAllCI(pat + rest, pat, rep) == rep + rest
  {
    var s := pat + rest;
    MatchAt(s, pat);
    assert s[|pat|..] == rest;
    ReplaceAllCIWithoutAmp(rest, pat, rep);
  }

  /** A character other than the entity's first letter is copied. */
  lemma CopyFirst(s: string, pat: string, rep: string)
    requires pat != [] && s != [] && LowerChar(s[0]) != pat[0]
    ensures ReplaceAllCI(s, pat, rep) == [s[0]] + ReplaceAllCI(s[1..], pat, rep)
  {
    MismatchAt(s, pat, 0);
  }

  /** Text before the one `&` that contains no `&` of its own is copied as it is. */
  lemma {:induction false} PrefixCopied(p: string, rest: string, pat: string, rep: string)
    requires pat != [] && pat[0] == '&' && '&' !in p
    ensures ReplaceAllCI(p + rest, pat, rep) == p + ReplaceAllCI(rest, pat, rep)
  {
    if p == [] {
      assert p + rest == rest;
    } else {
      assert p[0] in p;
      CopyFirst(p + rest, pat, rep);
      assert (p + rest)[1..] == p[1..] + rest;
      PrefixCopied(p[1..], rest, pat, rep);
    }
  }

  /** A text whose one `&` starts an entity other than `pat` is left alone. */
  lemma AmpAfterPrefix(p: string, rest: string, pat: string, rep: string)
    requires '&' !in p && |rest| > 1 && rest[0] == '&' && '&' !in rest[1..]
    requires |pat| > 1 && pat[0] == '&' && LowerChar(rest[1]) != pat[1]
    ensures ReplaceAllCI(p + rest, pat, rep) == p + rest
  {
    PrefixCopied(p, rest, pat, rep);
    LeadingAmpMismatch(rest, pat, rep, 1);
  }

  lemma SampleAmpLt(s: string)
    requires s == "&amp;lt;"
    ensures DecodeEntities(s) == "<"
  {
    AmpLtKept("&nbsp;", " ");
    AmpLtKept("&quot;", "\"");
    AmpLtKept("&#39;", "'");
    AmpOfAmpLt();
    LtDecoded();
    ReplaceAllCIWithoutAmp("<", "&gt;", ">");
  }

  lemma AmpLtKept(pat: string, rep: string)
    requires |pat| > 1 && pat[0] == '&' && pat[1] != 'a'
    ensures ReplaceAllCI("&amp;lt;", pat, rep) == "&amp;lt;"
  {
    var s := "&amp;lt;";
    assert '&' !in s[1..];
    LeadingAmpMismatch(s, pat, rep, 1);
  }

  lemma AmpOfAmpLt()
    ensures ReplaceAllCI("&amp;lt;", "&amp;", "&") == "&lt;"
  {
    assert "&amp;lt;" == "&amp;" + "lt;";
    LeadingEntity("&amp;", "lt;", "&");
    assert "&" + "lt;" == "&lt;";
  }

  lemma LtDecoded()
    ensures ReplaceAllCI("&lt;", "&lt;", "<") == "<"
  {
    var e: string := "";
    assert "&lt;" + e == "&lt;";
    LeadingEntity("&lt;", e, "<");
  }

  /** Upper-case `&AMP;` is decoded like `&amp;`. */
  lemma SampleUpperAmp(s: string)
    requires s == "x &AMP; y"
    ensures DecodeEntities(s) == "x & y"
  {
    UpperAmpKept("&nbsp;", " ");
    UpperAmpKept("&quot;", "\"");
    UpperAmpKept("&#39;", "'");
    UpperAmpDecoded();
    SpacedAmpKept("&lt;", "<");
    SpacedAmpKept("&gt;", ">");
  }

  lemma UpperAmpKept(pat: string, rep: string)
    requires |pat| > 1 && pat[0] == '&' && pat[1] != 'a'
    ensures ReplaceAllCI("x &AMP; y", pat, rep) == "x &AMP; y"
  {
    assert "x &AMP; y" == "x " + "&AMP; y";
    AmpAfterPrefix("x ", "&AMP; y", pat, rep);
  }

  lemma UpperAmpDecoded()
    ensures ReplaceAllCI("x &AMP; y", "&amp;", "&") == "x & y"
  {
    assert "x &AMP; y" == "x " + "&AMP; y";
    PrefixCopied("x ", "&AMP; y", "&amp;", "&");
    UpperAmpMatched();
    assert "x " + "& y" == "x & y";
  }

  lemma UpperAmpMatched()
    ensures ReplaceAllCI("&AMP; y", "&amp;", "&") == "& y"
  {
    var t := "&AMP; y";
    MatchAt(t, "&amp;");
    assert t[5..] == " y";
    ReplaceAllCIWithoutAmp(" y", "&amp;", "&");
    assert "&" + " y" == "& y";
  }

  /** A lone `&` followed by a space is no entity. */
  lemma SpacedAmpKept(pat: string, rep: string)
    requires |pat| > 1 && pat[0] == '&' && pat[1] != ' '
    ensures ReplaceAllCI("x & y", pat, rep) == "x & y"
  {
    assert "x & y" == "x " + "& y";
    AmpAfterPrefix("x ", "& y", pat, rep);
  }
}

/** `get_ONS_long_description`: a long description per listing item, built from the
    paragraphs of the item's Quality and Methodology Information (QMI) page. The HTTP
    requests and the HTML parse are inputs: an item is given as the list of its page's
    `<p>` elements, each already turned into the text `str(text.contents)`. */
module QmiNarrative {
  import opened Outcomes
  import opened PyText

  /** `MAX_RETRIES = 100`: attempts at fetching the item list. */
  const MaxRetries := 100

  /** A cleaned paragraph is kept only when it is longer than this. */
  const MinLength := 35

  /** `soup('p')[4:-7]`: the paragraphs skipped at the start and at the end of a page. */
  const SkipFirst := 4
  const SkipLast := 7

  /** One element of `items`: no `qmi.href` (`item['qmi']['href']` raises), a QMI page that
      could not be fetched, or the paragraph texts of the fetched page. */
  datatype QmiItem = NoQmiHref | QmiUnreachable | QmiPage(paragraphs: seq<string>)

  /** One attempt at `requests.get(api_url, params={"limit": 1000}).json()['items']`. */
  datatype Attempt = AttemptFailed | ItemsFetched(items: seq<QmiItem>)

  // ---------------------------------------------------------------- re.sub("\<.*?\>", "", x)

  /** Where the non-greedy `.*?>` that follows a `<` ends in `t`, the text after that `<`:
      at the first `>`, unless a newline (which `.` does not match) comes before it. */
  function TagEnd(t: string): (r: Option<nat>)
    ensures r.Some? ==> r.value < |t| && t[r.value] == '>'
    decreases |t|
  {
    if t == [] then None
    else if t[0] == '>' then Some(0)
    else if t[0] == '\n' then None
    else match TagEnd(t[1..])
      case Some(j) => Some(j + 1)
      case None => None
  }

  /** `TagEnd` is the shortest match: no `>` and no newline before the end it finds, and when
      it finds none, every `>` has a newline before it. */
  lemma {:induction false} TagEndIsLazyMatch(t: string)
    ensures TagEnd(t).Some? ==> forall i :: 0 <= i < TagEnd(t).value ==> t[i] != '>' && t[i] != '\n'
    ensures TagEnd(t).None? ==>
      forall j :: 0 <= j < |t| && t[j] == '>' ==> exists i :: 0 <= i < j && t[i] == '\n'
    decreases |t|
  {
    if t != [] && t[0] != '>' && t[0] != '\n' {
      var u := t[1..];
      TagEndIsLazyMatch(u);
      if TagEnd(u).Some? {
        forall i | 0 <= i < TagEnd(t).value
          ensures t[i] != '>' && t[i] != '\n'
        {
          if i > 0 {
            assert t[i] == u[i - 1];
          }
        }
      } else {
        forall j | 0 <= j < |t| && t[j] == '>'
          ensures exists i :: 0 <= i < j && t[i] == '\n'
        {
          assert u[j - 1] == '>';
          var i :| 0 <= i < j - 1 && u[i] == '\n';
          assert t[i + 1] == '\n';
        }
      }
    }
  }

  /** Line 159: scanning from the left, every `<` that starts a match is removed together
      with everything up to and including the `>` that ends it. */
  function StripTags(s: string): (r: string)
    ensures |r| <= |s|
    decreases |s|
  {
    if s == [] then []
    else if s[0] == '<' && TagEnd(s[1..]).Some? then StripTags(s[TagEnd(s[1..]).value + 2..])
    else [s[0]] + StripTags(s[1..])
  }

  /** No `<` in `s` starts a match of the tag pattern. */
  predicate TagFree(s: string) {
    forall i :: 0 <= i < |s| && s[i] == '<' ==> TagEnd(s[i + 1..]).None?
  }

  /** A text in which no tag can end keeps that property once its tags are removed:
      everything up to its first newline contains no `>` and is copied unchanged. */
  lemma {:induction false} NoTagEndSurvives(t: string)
    requires TagEnd(t).None?
    ensures TagEnd(StripTags(t)).None?
    decreases |t|
  {
    if t != [] && t[0] != '\n' {
      NoTagEndSurvives(t[1..]);
      assert StripTags(t) == [t[0]] + StripTags(t[1..]);
      assert StripTags(t)[1..] == StripTags(t[1..]);
    }
  }

  /** After the substitution no tag is left. */
  lemma {:induction false} StripTagsLeavesNoTag(s: string)
    ensures TagFree(StripTags(s))
    decreases |s|
  {
    if s == [] {
    } else if s[0] == '<' && TagEnd(s[1..]).Some? {
      StripTagsLeavesNoTag(s[TagEnd(s[1..]).value + 2..]);
    } else {
      var rest := StripTags(s[1..]);
      StripTagsLeavesNoTag(s[1..]);
      var r := [s[0]] + rest;
      forall i | 0 <= i < |r| && r[i] == '<'
        ensures TagEnd(r[i + 1..]).None?
      {
        if i == 0 {
          assert r[1..] == rest;
          NoTagEndSurvives(s[1..]);
        } else {
          assert r[i + 1..] == rest[i..];
          assert rest[i - 1] == '<';
        }
      }
    }
  }

  /** A text without tags is left unchanged. */
  lemma {:induction false} TagFreeUnchanged(s: string)
    requires TagFree(s)
    ensures StripTags(s) == s
    decreases |s|
  {
    if s != [] {
      assert s[0] == '<' ==> TagEnd(s[1..]).None?;
      forall i | 0 <= i < |s[1..]| && s[1..][i] == '<'
        ensures TagEnd(s[1..][i + 1..]).None?
      {
        assert s[1..][i + 1..] == s[i + 2..];
        assert s[i + 1] == '<';
      }
      TagFreeUnchanged(s[1..]);
    }
  }

  /** Removing tags a second time changes nothing. */
  lemma StripTagsIdempotent(s: string)
    ensures StripTags(StripTags(s)) == StripTags(s)
  {
    StripTagsLeavesNoTag(s);
    TagFreeUnchanged(StripTags(s));
  }

  // ---------------------------------------------------------------- re.sub(r"\s+", " ", y)

  /** The length of the run of whitespace at the start of `s`. */
  function SpaceRun(s: string): (n: nat)
    ensures n <= |s| && (n == |s| || !IsSpace(s[n]))
    ensures forall i :: 0 <= i < n ==> IsSpace(s[i])
    decreases |s|
  {
    if s == [] || !IsSpace(s[0]) then 0 else 1 + SpaceRun(s[1..])
  }

  /** Every whitespace character is a plain space, and none follows another. */
  ghost predicate Collapsed(r: string) {
    && (forall i :: 0 <= i < |r| && IsSpace(r[i]) ==> r[i] == ' ')
    && (forall i, j :: 0 <= i < j < |r| && j == i + 1 ==> !(IsSpace(r[i]) && IsSpace(r[j])))
  }

  /** Line 160: every maximal run of whitespace becomes one space. */
  function CollapseWhitespace(s: string): string
    decreases |s|
  {
    if s == [] then []
    else if IsSpace(s[0]) then " " + CollapseWhitespace(s[SpaceRun(s)..])
    else [s[0]] + CollapseWhitespace(s[1..])
  }

  /** The result is empty exactly when the text is, starts with a space exactly when the
      text starts with whitespace, and is collapsed. */
  lemma {:induction false} CollapseWhitespaceCollapses(s: string)
    ensures (CollapseWhitespace(s) == []) == (s == [])
    ensures CollapseWhitespace(s) != [] ==> (IsSpace(CollapseWhitespace(s)[0]) <==> IsSpace(s[0]))
    ensures Collapsed(CollapseWhitespace(s))
    decreases |s|
  {
    if s != [] {
      var k := if IsSpace(s[0]) then SpaceRun(s) else 1;
      var rest := CollapseWhitespace(s[k..]);
      CollapseWhitespaceCollapses(s[k..]);
      var r := CollapseWhitespace(s);
      assert r == r[..1] + rest && |r| == 1 + |rest|;
      forall i, j | 0 <= i < j < |r| && j == i + 1
        ensures !(IsSpace(r[i]) && IsSpace(r[j]))
      {
        if i > 0 {
          assert r[i] == rest[i - 1] && r[j] == rest[j - 1];
        }
      }
    }
  }

  // ---------------------------------------------------------------- one paragraph

  /** Lines 161-162: the `.replace` calls, in order. `"\\n"` and `"\\xa0"` are the escape
      sequences as they appear in the list's printed form, not the characters. */
  const Replacements: seq<(string, string)> :=
    [("\\n", ""), ("'", ""), (",", ""), ("  ", " "), ("\\xa0", " ")]

  /** Lines 158-162: the cleaning chain applied to one paragraph's text. */
  function Clean(x: string): string {
    ReplaceEach(CollapseWhitespace(StripTags(x)), Replacements)
  }

  /** Quotes and commas are deleted, and the later replacements only delete text or write
      spaces, so a cleaned paragraph holds neither. */
  lemma CleanHasNoQuoteOrComma(x: string)
    ensures '\'' !in Clean(x) && ',' !in Clean(x)
  {
    var y := CollapseWhitespace(StripTags(x));
    assert Replacements[1] == (['\''], "") && Replacements[2] == ([','], "");
    ReplaceEachDeletes(y, Replacements, 1, '\'');
    ReplaceEachDeletes(y, Replacements, 2, ',');
  }

  /** `replace('  ', ' ')` is one pass: the three spaces that deleting two commas leaves
      become two, so a cleaned paragraph can still hold a double space. */
  lemma DoubleSpaceCanRemain()
    ensures Clean(" , , ") == "  "
  {
    SampleUntouchedByRegexes();
    SampleChainHead();
    SampleChainTail();
  }

  /** The two substitutions leave the text `" , , "` as it is. */
  lemma SampleUntouchedByRegexes()
    ensures CollapseWhitespace(StripTags(" , , ")) == " , , "
  {
    var x := " , , ";
    assert TagFree(x);
    TagFreeUnchanged(x);
    assert CollapseWhitespace(", ") == ", ";
    assert CollapseWhitespace(" , ") == " , ";
    assert CollapseWhitespace(", , ") == ", , ";
  }

  /** The first three replacements of the chain turn `" , , "` into three spaces. */
  lemma SampleChainHead()
    ensures ReplaceEach(" , , ", Replacements) == ReplaceEach("   ", Replacements[3..])
  {
    var x := " , , ";
    assert Replacements[0] == ("\\n", "") && Replacements[1..][0] == ("'", "");
    assert Replacements[1..][1..] == Replacements[2..];
    assert Replacements[2..][0] == (",", "") && Replacements[2..][1..] == Replacements[3..];
    assert '\\' !in x && '\'' !in x;
    ReplaceWithoutLead(x, "\\n", "");
    ReplaceWithoutLead(x, "'", "");
    SampleDropsCommas();
  }

  /** Deleting the commas of `" , , "` leaves three spaces. */
  lemma SampleDropsCommas()
    ensures Replace(" , , ", ",", "") == "   "
  {
    assert Replace(" ", ",", "") == " ";
    assert Replace(", ", ",", "") == " ";
    assert Replace(" , ", ",", "") == "  ";
    assert Replace(", , ", ",", "") == "  ";
  }

  /** The last two replacements turn three spaces into two. */
  lemma SampleChainTail()
    ensures ReplaceEach("   ", Replacements[3..]) == "  "
  {
    assert Replace(" ", "  ", " ") == " ";
    assert Replace("   ", "  ", " ") == "  ";
    assert '\\' !in "  ";
    ReplaceWithoutLead("  ", "\\xa0", " ");
    assert Replacements[3..][0] == ("  ", " ") && Replacements[3..][1..] == Replacements[4..];
    assert Replacements[4..][0] == ("\\xa0", " ") && Replacements[4..][1..] == [];
    assert ReplaceEach("  ", Replacements[4..]) == ReplaceEach("  ", []);
  }

  /** Lines 163-164: what a cleaned paragraph adds to the description: nothing unless it is
      longer than 35 characters, and then itself without its first and last character. */
  function Contribution(y: string): (r: string)
    ensures r != [] <==> |y| > MinLength
    ensures r != [] ==> |r| == |y| - 2 >= MinLength - 1
  {
    if |y| > MinLength then y[1..|y| - 1] else ""
  }

  /** A kept text loses exactly its first and last character (the brackets of the list
      representation). */
  lemma ContributionDropsEnds(y: string)
    requires |y| > MinLength
    ensures y == [y[0]] + Contribution(y) + [y[|y| - 1]]
  {
  }

  // ---------------------------------------------------------------- one page

  /** `soup('p')[4:-7]`. */
  function Window(ps: seq<string>): seq<string> {
    Slice(ps, SkipFirst, 0 - SkipLast)
  }

  /** The window keeps `max(0, n - 11)` paragraphs, those at indices 4 .. n-8. */
  lemma WindowKeepsMiddle(ps: seq<string>)
    ensures Window(ps) == if |ps| > SkipFirst + SkipLast then ps[SkipFirst..|ps| - SkipLast] else []
  {
    SliceDropsEnds(ps, SkipFirst, SkipLast);
  }

  /** Each paragraph's text after the cleaning chain, in paragraph order. */
  function Cleaned(ps: seq<string>): (ys: seq<string>)
    ensures |ys| == |ps|
    decreases |ps|
  {
    if ps == [] then [] else Cleaned(ps[..|ps| - 1]) + [Clean(ps[|ps| - 1])]
  }

  lemma {:induction false} CleanedAt(ps: seq<string>, i: nat)
    requires i < |ps|
    ensures Cleaned(ps)[i] == Clean(ps[i])
    decreases |ps|
  {
    if i < |ps| - 1 {
      CleanedAt(ps[..|ps| - 1], i);
    }
  }

  lemma CleanedSplitLast(ps: seq<string>, qs: seq<string>)
    requires qs != []
    ensures Cleaned(ps + qs) == Cleaned(ps + qs[..|qs| - 1]) + [Clean(qs[|qs| - 1])]
  {
    assert (ps + qs)[..|ps + qs| - 1] == ps + qs[..|qs| - 1];
    assert (ps + qs)[|ps + qs| - 1] == qs[|qs| - 1];
  }

  lemma {:induction false} CleanedAppend(ps: seq<string>, qs: seq<string>)
    ensures Cleaned(ps + qs) == Cleaned(ps) + Cleaned(qs)
    decreases |qs|
  {
    if qs == [] {
      assert ps + qs == ps;
    } else {
      var front := qs[..|qs| - 1];
      var last := [Clean(qs[|qs| - 1])];
      CleanedSplitLast(ps, qs);
      CleanedAppend(ps, front);
      assert (Cleaned(ps) + Cleaned(front)) + last == Cleaned(ps) + (Cleaned(front) + last);
    }
  }

  /** The contributions of the cleaned texts `ys`, concatenated in order. */
  function Joined(ys: seq<string>): string
    decreases |ys|
  {
    if ys == [] then "" else Joined(ys[..|ys| - 1]) + Contribution(ys[|ys| - 1])
  }

  /** The description `temp_desc` built from the paragraphs `ps`. */
  function Narrative(ps: seq<string>): string {
    Joined(Cleaned(ps))
  }

  /** The number of cleaned texts long enough to be kept. */
  function Kept(ys: seq<string>): nat
    decreases |ys|
  {
    if ys == [] then 0 else Kept(ys[..|ys| - 1]) + (if |ys[|ys| - 1]| > MinLength then 1 else 0)
  }

  /** Concatenation regroups; proved apart so that callers get it without unfolding `Joined`. */
  lemma SeqAppendAssoc(a: string, b: string, c: string)
    ensures (a + b) + c == a + (b + c)
  {
  }

  /** The last cleaned text of a non-empty second run is the last one joined. */
  lemma JoinedSplitLast(ys: seq<string>, zs: seq<string>)
    requires zs != []
    ensures Joined(ys + zs) == Joined(ys + zs[..|zs| - 1]) + Contribution(zs[|zs| - 1])
  {
    assert (ys + zs)[..|ys + zs| - 1] == ys + zs[..|zs| - 1];
    assert (ys + zs)[|ys + zs| - 1] == zs[|zs| - 1];
  }

  lemma {:induction false} JoinedAppend(ys: seq<string>, zs: seq<string>)
    ensures Joined(ys + zs) == Joined(ys) + Joined(zs)
    decreases |zs|
  {
    if zs == [] {
      assert ys + zs == ys;
    } else {
      var front := zs[..|zs| - 1];
      var last := Contribution(zs[|zs| - 1]);
      JoinedSplitLast(ys, zs);
      JoinedAppend(ys, front);
      SeqAppendAssoc(Joined(ys), Joined(front), last);
    }
  }

  /** The description of two runs of paragraphs is the first one's followed by the second one's. */
  lemma NarrativeAppend(ps: seq<string>, qs: seq<string>)
    ensures Narrative(ps + qs) == Narrative(ps) + Narrative(qs)
  {
    CleanedAppend(ps, qs);
    JoinedAppend(Cleaned(ps), Cleaned(qs));
  }

  /** One more cleaned text adds its contribution at the end. */
  lemma JoinedPrefixStep(ys: seq<string>, i: nat)
    requires i < |ys|
    ensures Joined(ys[..i + 1]) == Joined(ys[..i]) + Contribution(ys[i])
  {
    assert ys[..i + 1][..i] == ys[..i];
  }

  lemma {:induction false} JoinedLength(ys: seq<string>)
    ensures |Joined(ys)| >= (MinLength - 1) * Kept(ys)
    ensures Joined(ys) == "" <==> Kept(ys) == 0
    decreases |ys|
  {
    if ys != [] {
      JoinedLength(ys[..|ys| - 1]);
    }
  }

  /** Every kept paragraph adds at least 34 characters, and the description is empty
      exactly when no paragraph is kept. */
  lemma NarrativeLength(ps: seq<string>)
    ensures |Narrative(ps)| >= (MinLength - 1) * Kept(Cleaned(ps))
    ensures Narrative(ps) == "" <==> Kept(Cleaned(ps)) == 0
  {
    JoinedLength(Cleaned(ps));
  }

  lemma {:induction false} JoinedKeepsAbsent(ys: seq<string>, c: char)
    requires forall i :: 0 <= i < |ys| ==> c !in ys[i]
    ensures c !in Joined(ys)
    decreases |ys|
  {
    if ys != [] {
      var y := ys[|ys| - 1];
      JoinedKeepsAbsent(ys[..|ys| - 1], c);
      var r := Contribution(y);
      assert forall i :: 0 <= i < |r| ==> r[i] == y[i + 1];
    }
  }

  /** A description holds no quote and no comma. */
  lemma NarrativeHasNoQuoteOrComma(ps: seq<string>)
    ensures '\'' !in Narrative(ps) && ',' !in Narrative(ps)
  {
    var ys := Cleaned(ps);
    forall i | 0 <= i < |ys|
      ensures '\'' !in ys[i] && ',' !in ys[i]
    {
      CleanedAt(ps, i);
      CleanHasNoQuoteOrComma(ps[i]);
    }
    JoinedKeepsAbsent(ys, '\'');
    JoinedKeepsAbsent(ys, ',');
  }

  /** A page of at most 11 paragraphs gives an empty description; of 12 paragraphs only the
      fifth is considered, and a short one gives an empty description too. */
  lemma ShortPagesGiveNothing(ps: seq<string>)
    ensures |ps| <= SkipFirst + SkipLast ==> Narrative(Window(ps)) == ""
    ensures |ps| == SkipFirst + SkipLast + 1 ==> Window(ps) == [ps[SkipFirst]]
    ensures |ps| == SkipFirst + SkipLast + 1 && |Clean(ps[SkipFirst])| <= MinLength ==>
      Narrative(Window(ps)) == ""
  {
    WindowKeepsMiddle(ps);
    if |ps| == SkipFirst + SkipLast + 1 {
      var w := Window(ps);
      assert w == [ps[SkipFirst]];
      var ys := Cleaned(w);
      CleanedAt(w, 0);
      assert ys[..0] == [];
      assert Joined(ys) == Contribution(ys[0]);
    }
  }

  /** Lines 158-164: one paragraph's turn of the loop; `temp_desc` grows by the paragraph's
      contribution. */
  method AppendParagraph(desc: string, x: string) returns (desc': string)
    ensures desc' == desc + Contribution(Clean(x))
  {
    var y := Clean(x);
    desc' := desc;
    if |y| > MinLength {
      desc' := desc' + y[1..|y| - 1];
    }
  }

  /** Lines 155-164: the description of one fetched QMI page. */
  method BuildNarrative(paragraphs: seq<string>) returns (desc: string)
    ensures desc == Narrative(Window(paragraphs))
  {
    var window := Slice(paragraphs, SkipFirst, 0 - SkipLast);
    ghost var ys := Cleaned(window);
    desc := "";
    for i := 0 to |window|
      invariant desc == Joined(ys[..i])
    {
      JoinedPrefixStep(ys, i);
      CleanedAt(window, i);
      desc := AppendParagraph(desc, window[i]);
    }
    assert ys[..|window|] == ys;
  }

  // ---------------------------------------------------------------- the whole function

  predicate FailedBefore(attempts: seq<Attempt>, n: nat)
    requires n <= |attempts|
  {
    forall j :: 0 <= j < n ==> attempts[j].AttemptFailed?
  }

  /** Lines 128-135: up to `MaxRetries` attempts at fetching the item list; the first that
      succeeds gives `items`. When all fail, `items` is never bound and line 139 raises. */
  method FetchItems(attempts: seq<Attempt>) returns (out: Outcome<seq<QmiItem>>, tries: nat)
    ensures tries <= MaxRetries && tries <= |attempts|
    ensures out.Returned? ==>
      tries > 0 && FailedBefore(attempts, tries - 1) && attempts[tries - 1] == ItemsFetched(out.value)
    ensures out.Raised? ==>
      out.error == NameError && tries == MaxRetries && FailedBefore(attempts, tries)
    ensures out.NeedsMoreInput? ==> tries == |attempts| < MaxRetries && FailedBefore(attempts, tries)
  {
    tries := 0;
    while tries < MaxRetries
      invariant tries <= MaxRetries && tries <= |attempts|
      invariant FailedBefore(attempts, tries)
    {
      if tries == |attempts| {
        return NeedsMoreInput, tries;
      }
      var attempt := attempts[tries];
      tries := tries + 1;
      if attempt.ItemsFetched? {
        return Returned(attempt.items), tries;
      }
    }
    out := Raised(NameError);
  }

  /** The entry `description_L` gets for one item: the description of its QMI page, or
      `''` when the item has no QMI link or its page cannot be fetched (lines 165-167). */
  function ItemDescription(item: QmiItem): string {
    if item.QmiPage? then Narrative(Window(item.paragraphs)) else ""
  }

  /** Lines 138-169: one description per item, in item order. */
  method DescribeItems(items: seq<QmiItem>) returns (descriptions: seq<string>)
    ensures |descriptions| == |items|
    ensures forall i :: 0 <= i < |items| ==> descriptions[i] == ItemDescription(items[i])
  {
    descriptions := [];
    for i := 0 to |items|
      invariant |descriptions| == i
      invariant forall m :: 0 <= m < i ==> descriptions[m] == ItemDescription(items[m])
    {
      var desc := "";
      if items[i].QmiPage? {
        desc := BuildNarrative(items[i].paragraphs);
      }
      descriptions := descriptions + [desc];
    }
  }

  /** `get_ONS_long_description`. */
  method GetLongDescription(attempts: seq<Attempt>) returns (out: Outcome<seq<string>>, tries: nat)
    ensures tries <= MaxRetries && tries <= |attempts|
    ensures out.Returned? <==> tries > 0 && attempts[tries - 1].ItemsFetched?
    ensures out.Returned? ==>
      var items := attempts[tries - 1].items;
      && FailedBefore(attempts, tries - 1)
      && |out.value| == |items|
      && (forall i :: 0 <= i < |items| ==> out.value[i] == ItemDescription(items[i]))
    ensures out.NeedsMoreInput? ==> tries == |attempts| < MaxRetries
    ensures !out.Returned? ==>
      FailedBefore(attempts, tries) &&
      out == (if tries == MaxRetries then Raised(NameError) else NeedsMoreInput)
  {
    var fetched;
    fetched, tries := FetchItems(attempts);
    match fetched
    case Returned(items) =>
      var descriptions := DescribeItems(items);
      out := Returned(descriptions);
    case Raised(e) =>
      out := Raised(e);
    case NeedsMoreInput =>
      out := NeedsMoreInput;
  }
}

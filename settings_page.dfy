/** The settings page: building the settings update from the form, normalising the
    word-mute list, announcing the update only after the server accepted it, and
    filling the form from the stored profile. */
module SettingsPage {
  import opened Wrappers
  import opened Text
  import opened Dto
  import Lists

  const DefaultBoxName := "質問箱"
  const MaxFlags: nat := 6

  /** A regular-expression flag letter, `[igmsuy]`. */
  predicate IsFlag(c: char)
  {
    c in {'i', 'g', 'm', 's', 'u', 'y'}
  }

  /** The pattern `\/[igmsuy]{0,6}$` matches at `q`. */
  predicate FlagSuffixAt(r: string, q: int)
  {
    0 <= q < |r| && r[q] == '/' && |r| - q - 1 <= MaxFlags
    && forall k :: q < k < |r| ==> IsFlag(r[k])
  }

  /** The first position at or after `start` where the flag-suffix pattern matches. */
  function FirstFlagSuffix(r: string, start: nat): (q: Option<nat>)
    ensures q.None? <==> forall k :: start <= k ==> !FlagSuffixAt(r, k)
    ensures q.Some? ==> start <= q.value && FlagSuffixAt(r, q.value)
    ensures q.Some? ==> forall k :: start <= k < q.value ==> !FlagSuffixAt(r, k)
    decreases |r| - start
  {
    if start >= |r| then None
    else if FlagSuffixAt(r, start) then Some(start)
    else FirstFlagSuffix(r, start + 1)
  }

  /** The word without its leading `/`, when it has one. */
  function AfterLeadingSlash(w: string): string
  {
    if |w| >= 1 && w[0] == '/' then w[1..] else w
  }

  /** `word.replace(/^\/|\/[igmsuy]{0,6}$/g, '')`: a leading `/` is removed, then a
      trailing `/flags` is removed from what follows it; the leading slash, once
      consumed, cannot also serve as the trailing one. The result is cut exactly where
      such a suffix starts, if there is one, and nowhere else. */
  function StripDelimiters(w: string): (r: string)
    ensures var rest := AfterLeadingSlash(w);
      && |r| <= |rest| && r == rest[..|r|]
      && ((exists q :: 0 <= q < |rest| && FlagSuffixAt(rest, q)) <==> |r| < |rest|)
      && (|r| < |rest| ==> FlagSuffixAt(rest, |r|))
      && (forall q :: 0 <= q < |r| ==> !FlagSuffixAt(rest, q))
  {
    var rest := AfterLeadingSlash(w);
    match FirstFlagSuffix(rest, 0)
    case None => assert rest[..|rest|] == rest; rest
    case Some(q) => rest[..q]
  }

  /** A regular expression written as `/pattern/flags` (at most six flags) gives back
      its pattern, whatever the pattern holds. */
  lemma StripRegexLiteral(p: string, f: string)
    requires |f| <= MaxFlags && forall k :: 0 <= k < |f| ==> IsFlag(f[k])
    ensures StripDelimiters("/" + p + "/" + f) == p
  {
    var w := "/" + p + "/" + f;
    var rest := p + "/" + f;
    assert AfterLeadingSlash(w) == rest;
    assert rest[|p|] == '/';
    forall k | |p| < k < |rest| ensures IsFlag(rest[k]) {
      assert rest[k] == f[k - |p| - 1];
    }
    assert FlagSuffixAt(rest, |p|);
    var r := StripDelimiters(w);
    assert |r| == |p| by {
      assert !IsFlag(rest[|p|]);
    }
    assert rest[..|p|] == p;
  }

  /** A word the stripping leaves alone: no leading `/` and no trailing `/flags`. */
  predicate Undelimited(w: string)
  {
    (|w| == 0 || w[0] != '/') && forall q :: 0 <= q < |w| ==> !FlagSuffixAt(w, q)
  }

  lemma StripUndelimited(w: string)
    requires Undelimited(w)
    ensures StripDelimiters(w) == w
  {
    assert AfterLeadingSlash(w) == w;
  }

  function NonEmpty(v: string): bool
  {
    |v| > 0
  }

  /** The mute list as the settings body carries it: split on line feeds, each line
      trimmed, empty lines dropped, then each word's delimiters stripped. */
  function NormalizeMuteList(text: string): (r: seq<string>)
    ensures |r| <= CountChar(text, '\n') + 1
  {
    var lines := Split(text, '\n');
    SplitLength(text, '\n');
    var kept := Lists.Filter(Lists.Map(lines, Trim), NonEmpty);
    Lists.Map(kept, StripDelimiters)
  }

  /** One line: a blank one contributes nothing, any other its trimmed text with the
      delimiters stripped. */
  lemma MuteListOfLine(l: string)
    requires '\n' !in l
    ensures NormalizeMuteList(l) == (if Trim(l) == "" then [] else [StripDelimiters(Trim(l))])
  {
    SplitNoSeparator(l, '\n');
    assert Lists.Map([l], Trim) == [Trim(l)];
    assert [Trim(l)][1..] == [];
    if Trim(l) != "" {
      assert Lists.Filter([Trim(l)], NonEmpty) == [Trim(l)];
    }
  }

  /** The lines contribute independently and in input order. */
  lemma MuteListOfLines(l: string, rest: string)
    requires '\n' !in l
    ensures NormalizeMuteList(l + "\n" + rest) == NormalizeMuteList(l) + NormalizeMuteList(rest)
  {
    assert l + "\n" + rest == l + ['\n'] + rest;
    SplitAfterPiece(l, '\n', rest);
    SplitNoSeparator(l, '\n');
    var lines := Split(rest, '\n');
    Lists.MapConcat([l], lines, Trim);
    Lists.FilterConcat(Lists.Map([l], Trim), Lists.Map(lines, Trim), NonEmpty);
    Lists.MapConcat(Lists.Filter(Lists.Map([l], Trim), NonEmpty), Lists.Filter(Lists.Map(lines, Trim), NonEmpty), StripDelimiters);
  }

  /** Filtering comes before stripping: a line holding only `/` survives the filter
      and becomes an empty word. */
  lemma SlashLineGivesEmptyWord()
    ensures NormalizeMuteList("/") == [""]
  {
    var lines := Split("/", '\n');
    SplitNoSeparator("/", '\n');
    assert lines == ["/"];
    assert Trim("/") == "/";
    var trimmed := Lists.Map(lines, Trim);
    assert trimmed == ["/"];
    assert Lists.Filter(trimmed, NonEmpty) == ["/"] by {
      assert trimmed[1..] == [];
    }
    assert StripDelimiters("/") == "";
  }

  /** A word stored in its normalised form. */
  predicate Canonical(w: string)
  {
    w != "" && IsTrimmed(w) && '\n' !in w && Undelimited(w)
  }

  /** The form shows the stored list joined with line feeds; submitting it unchanged
      gives back the stored list when every word is canonical. */
  lemma MuteListRoundTrip(ws: seq<string>)
    requires forall i :: 0 <= i < |ws| ==> Canonical(ws[i])
    ensures NormalizeMuteList(Join(ws, '\n')) == ws
  {
    if ws == [] {
      assert Split("", '\n') == [""];
      assert Lists.Map([""], Trim) == [""];
      assert Lists.Filter([""], NonEmpty) == [] by {
        assert [""][1..] == [];
      }
    } else {
      SplitJoin(ws, '\n');
      CanonicalWordsFixed(ws);
    }
  }

  lemma CanonicalWordsFixed(ws: seq<string>)
    requires forall i :: 0 <= i < |ws| ==> Canonical(ws[i])
    ensures Lists.Map(ws, Trim) == ws
    ensures Lists.Filter(ws, NonEmpty) == ws
    ensures Lists.Map(ws, StripDelimiters) == ws
  {
    forall i | 0 <= i < |ws| ensures Trim(ws[i]) == ws[i] {
      TrimOfTrimmed(ws[i]);
    }
    Lists.MapIdentity(ws, Trim);
    Lists.FilterAllKept(ws, NonEmpty);
    forall i | 0 <= i < |ws| ensures StripDelimiters(ws[i]) == ws[i] {
      StripUndelimited(ws[i]);
    }
    Lists.MapIdentity(ws, StripDelimiters);
  }

  /** The settings form. */
  datatype FormValue = FormValue(
    stopAnonQuestion: bool, stopNewQuestion: bool, stopNotiNewQuestion: bool, stopPostAnswer: bool,
    questionBoxName: string, visibility: Visibility, wordMuteList: string)

  /** `UserSettingsUpdateDto`. */
  datatype SettingsUpdate = SettingsUpdate(
    stopAnonQuestion: bool, stopNewQuestion: bool, stopNotiNewQuestion: bool, stopPostAnswer: bool,
    questionBoxName: string, defaultPostVisibility: Visibility, wordMuteList: seq<string>)

  /** The request body of `updateUserSettings`. */
  function SettingsBody(v: FormValue): (b: SettingsUpdate)
    ensures b.questionBoxName == (if v.questionBoxName == "" then DefaultBoxName else v.questionBoxName)
    ensures b.questionBoxName != ""
    ensures b.stopAnonQuestion == v.stopAnonQuestion && b.stopNewQuestion == v.stopNewQuestion
    ensures b.stopNotiNewQuestion == v.stopNotiNewQuestion && b.stopPostAnswer == v.stopPostAnswer
    ensures b.defaultPostVisibility == v.visibility
    ensures b.wordMuteList == NormalizeMuteList(v.wordMuteList)
    ensures |b.wordMuteList| <= CountChar(v.wordMuteList, '\n') + 1
  {
    SettingsUpdate(
      v.stopAnonQuestion, v.stopNewQuestion, v.stopNotiNewQuestion, v.stopPostAnswer,
      if v.questionBoxName == "" then DefaultBoxName else v.questionBoxName,
      v.visibility, NormalizeMuteList(v.wordMuteList))
  }

  /** `{ ...body }` as a profile update. */
  function AsPatch(b: SettingsUpdate): ProfilePatch
  {
    ProfilePatch(None, Some(b.stopAnonQuestion), Some(b.stopNewQuestion), Some(b.stopNotiNewQuestion),
      Some(b.stopPostAnswer), Some(b.questionBoxName), Some(b.defaultPostVisibility), Some(b.wordMuteList))
  }

  /** What `updateUserSettings` did: the body sent, the profile update announced (only
      on an ok reply) and whether the API-error handler ran. */
  datatype UpdateOutcome = UpdateOutcome(sent: SettingsUpdate, announced: Option<ProfilePatch>, reportedError: bool)

  function UpdateUserSettings(v: FormValue, status: int): (r: UpdateOutcome)
    ensures r.sent == SettingsBody(v)
    ensures r.announced.Some? <==> 200 <= status <= 299
    ensures r.announced.Some? ==> r.announced.value == AsPatch(SettingsBody(v))
    ensures r.reportedError <==> r.announced.None?
  {
    var body := SettingsBody(v);
    if 200 <= status <= 299 then UpdateOutcome(body, Some(AsPatch(body)), false)
    else UpdateOutcome(body, None, true)
  }

  /** The announced update applied to the profile context: the settings take the sent
      values; handle and question count are untouched. */
  lemma AnnouncedUpdateApplies(p: MyProfile, v: FormValue)
    ensures var b := SettingsBody(v);
      var m := Merge(p, AsPatch(b));
      && m.handle == p.handle && m.questions == p.questions
      && m.questionBoxName == b.questionBoxName && m.wordMuteList == b.wordMuteList
      && m.defaultPostVisibility == v.visibility && m.stopPostAnswer == v.stopPostAnswer
  {
  }

  /** The form's values taken from the stored profile. */
  function FormFromProfile(p: MyProfile): (v: FormValue)
    ensures v.questionBoxName == p.questionBoxName && v.visibility == p.defaultPostVisibility
    ensures v.wordMuteList == Join(p.wordMuteList, '\n')
    ensures v.stopAnonQuestion == p.stopAnonQuestion && v.stopNewQuestion == p.stopNewQuestion
    ensures v.stopNotiNewQuestion == p.stopNotiNewQuestion && v.stopPostAnswer == p.stopPostAnswer
  {
    FormValue(p.stopAnonQuestion, p.stopNewQuestion, p.stopNotiNewQuestion, p.stopPostAnswer,
      p.questionBoxName, p.defaultPostVisibility, Join(p.wordMuteList, '\n'))
  }

  /** Saving the form as loaded writes back what was stored, when the box has a name
      and every mute word is canonical. */
  lemma UnchangedFormRoundTrip(p: MyProfile)
    requires p.questionBoxName != ""
    requires forall i :: 0 <= i < |p.wordMuteList| ==> Canonical(p.wordMuteList[i])
    ensures Merge(p, AsPatch(SettingsBody(FormFromProfile(p)))) == p
  {
    var v := FormFromProfile(p);
    MuteListRoundTrip(p.wordMuteList);
    var b := SettingsBody(v);
    assert b.wordMuteList == p.wordMuteList;
    assert b.questionBoxName == p.questionBoxName;
    var m := Merge(p, AsPatch(b));
    assert m.wordMuteList == p.wordMuteList;
  }
}

/** The login page: `convertHost` turns a typed URL, handle or host into a lower-case
    host name, and the submit handler dispatches on the detected instance type. The
    two regular expressions are decided character by character:
    the URL pattern is the leftmost `//` followed by a run of characters other than
    `/`, `@` and white space, then an optional `/`; the handle pattern is the leftmost
    position from which an optional `:`, an `@` and a non-empty run of characters
    other than `@` and white space reach the end of the input. */
module LoginPage {
  import opened Wrappers
  import opened Text

  /** A character of the URL pattern's host run `[^/@\s]`. */
  predicate UrlHostChar(c: char)
  {
    c != '/' && c != '@' && !IsJsSpace(c)
  }

  /** A character of the handle pattern's tail `[^@\s\n\r\t]`. */
  predicate HandleTailChar(c: char)
  {
    c != '@' && !IsJsSpace(c)
  }

  /** The URL pattern can start at `i`. */
  predicate UrlAt(s: string, i: int)
  {
    0 <= i && i + 3 <= |s| && s[i] == '/' && s[i + 1] == '/' && UrlHostChar(s[i + 2])
  }

  /** The longest prefix of `s` made of host-run characters. */
  function HostRun(s: string): (r: string)
    ensures |r| <= |s| && r == s[..|r|]
    ensures forall k :: 0 <= k < |r| ==> UrlHostChar(r[k])
    ensures |r| == |s| || !UrlHostChar(s[|r|])
  {
    if s == [] || !UrlHostChar(s[0]) then [] else [s[0]] + HostRun(s[1..])
  }

  /** Where the URL pattern first matches at or after `start`. */
  function FirstUrl(s: string, start: nat): (r: Option<nat>)
    ensures r.None? <==> forall i :: start <= i ==> !UrlAt(s, i)
    ensures r.Some? ==> start <= r.value && UrlAt(s, r.value)
    ensures r.Some? ==> forall j :: start <= j < r.value ==> !UrlAt(s, j)
    decreases |s| - start
  {
    if start + 3 > |s| then None
    else if UrlAt(s, start) then Some(start)
    else FirstUrl(s, start + 1)
  }

  /** The text the URL pattern matches at `i`: `//`, the host run, and one `/` if
      one follows (the optional port group never matches, since the run has
      already taken any `:` and digits). Without its slashes it is the host run. */
  function UrlMatchText(s: string, i: nat): (m: string)
    requires UrlAt(s, i)
    ensures RemoveAll(m, '/') == HostRun(s[i + 2..])
  {
    var run := HostRun(s[i + 2..]);
    var after := i + 2 + |run|;
    var slash := if after < |s| && s[after] == '/' then "/" else "";
    RemoveAllConcat("//" + run, slash, '/');
    RemoveAllConcat("//", run, '/');
    assert '/' !in run by {
      forall k | 0 <= k < |run| ensures run[k] != '/' { }
    }
    RemoveAllAbsent(run, '/');
    assert RemoveAll("//", '/') == "" by {
      assert "//"[1..] == "/";
      assert "/"[1..] == "";
    }
    assert RemoveAll(slash, '/') == "" by {
      if slash == "/" { assert slash[1..] == ""; }
    }
    "//" + run + slash
  }

  predicate HandleTail(t: string)
  {
    |t| >= 1 && forall k :: 0 <= k < |t| ==> HandleTailChar(t[k])
  }

  /** The handle pattern matches from `i` to the end of `s`. */
  predicate HandleAt(s: string, i: int)
  {
    0 <= i < |s| &&
    ((s[i] == ':' && i + 1 < |s| && s[i + 1] == '@' && HandleTail(s[i + 2..]))
     || (s[i] == '@' && HandleTail(s[i + 1..])))
  }

  /** Where the handle pattern first matches at or after `start`; the match runs to
      the end of `s`. */
  function FirstHandle(s: string, start: nat): (r: Option<nat>)
    ensures r.None? <==> forall i :: start <= i ==> !HandleAt(s, i)
    ensures r.Some? ==> start <= r.value && HandleAt(s, r.value)
    ensures r.Some? ==> forall j :: start <= j < r.value ==> !HandleAt(s, j)
    decreases |s| - start
  {
    if start >= |s| then None
    else if HandleAt(s, start) then Some(start)
    else FirstHandle(s, start + 1)
  }

  /** The handle match without its `@`: the tail, preceded by the colon when the
      match started with one. */
  function HandleHost(s: string, i: nat): (h: string)
    requires HandleAt(s, i)
    ensures h == RemoveAll(s[i..], '@')
    ensures '@' !in h
  {
    if s[i] == ':' then
      var t := s[i + 2..];
      NoAtInTail(t);
      RemoveAllPieces(':', t);
      assert s[i..] == [':'] + ['@'] + t;
      [':'] + t
    else
      var t := s[i + 1..];
      NoAtInTail(t);
      RemoveAllAbsent(t, '@');
      assert s[i..] == ['@'] + t;
      assert (['@'] + t)[1..] == t;
      t
  }

  lemma NoAtInTail(t: string)
    requires HandleTail(t)
    ensures '@' !in t
  {
    forall k | 0 <= k < |t| ensures t[k] != '@' {
      assert HandleTailChar(t[k]);
    }
  }

  lemma RemoveAllPieces(c: char, t: string)
    requires '@' !in t && c != '@'
    ensures RemoveAll([c] + ['@'] + t, '@') == [c] + t
  {
    var v := ['@'] + t;
    var u := [c] + v;
    assert [c] + ['@'] + t == u;
    assert u[1..] == v;
    assert v[1..] == t;
    RemoveAllAbsent(t, '@');
    assert RemoveAll(v, '@') == t;
    assert RemoveAll(u, '@') == [c] + RemoveAll(v, '@');
  }

  /** `convertHost`: the URL pattern wins over the handle pattern, which wins over the
      bare input; each result is lower-cased. */
  function ConvertHost(s: string): (r: string)
    ensures IsLowerCase(r)
    ensures FirstUrl(s, 0).Some? ==>
      r == Lower(HostRun(s[FirstUrl(s, 0).value + 2..])) && '/' !in r && '@' !in r
    ensures FirstUrl(s, 0).None? && FirstHandle(s, 0).Some? ==>
      var i := FirstHandle(s, 0).value;
      r == Lower(if s[i] == ':' then ":" + s[i + 2..] else s[i + 1..]) && '@' !in r
    ensures FirstUrl(s, 0).None? && FirstHandle(s, 0).None? ==> r == Lower(s)
  {
    LowerIsLowerCase(s);
    match FirstUrl(s, 0)
    case Some(i) =>
      var h := RemoveAll(UrlMatchText(s, i), '/');
      assert '@' !in h by {
        forall k | 0 <= k < |h| ensures h[k] != '@' {
          assert UrlHostChar(h[k]);
        }
      }
      LowerIsLowerCase(h);
      LowerPreservesAbsence(h, '/');
      LowerPreservesAbsence(h, '@');
      Lower(h)
    case None =>
      match FirstHandle(s, 0)
      case Some(i) =>
        var h := RemoveAll(s[i..], '@');
        assert h == HandleHost(s, i);
        LowerIsLowerCase(h);
        LowerPreservesAbsence(h, '@');
        Lower(h)
      case None => Lower(s)
  }

  /** Lower-casing keeps every character the two patterns look at. */
  lemma LowerCharKeepsClasses(c: char)
    ensures LowerChar(c) == '/' <==> c == '/'
    ensures LowerChar(c) == '@' <==> c == '@'
    ensures LowerChar(c) == ':' <==> c == ':'
    ensures IsJsSpace(LowerChar(c)) <==> IsJsSpace(c)
  {
  }

  lemma NoUrlAfterLower(t: string)
    requires forall i :: 0 <= i ==> !UrlAt(t, i)
    ensures forall i :: 0 <= i ==> !UrlAt(Lower(t), i)
  {
    forall i | 0 <= i && i + 3 <= |t|
      ensures !UrlAt(Lower(t), i)
    {
      LowerCharKeepsClasses(t[i]);
      LowerCharKeepsClasses(t[i + 1]);
      LowerCharKeepsClasses(t[i + 2]);
      assert !UrlAt(t, i);
    }
  }

  lemma NoHandleAfterLower(t: string)
    requires forall i :: 0 <= i ==> !HandleAt(t, i)
    ensures forall i :: 0 <= i ==> !HandleAt(Lower(t), i)
  {
    var l := Lower(t);
    forall i | 0 <= i < |t|
      ensures !HandleAt(l, i)
    {
      LowerCharKeepsClasses(t[i]);
      assert !HandleAt(t, i);
      if i + 1 < |t| {
        LowerCharKeepsClasses(t[i + 1]);
      }
      if i + 2 <= |t| && HandleTail(l[i + 2..]) {
        TailBeforeLower(t, i + 2);
      }
      if HandleTail(l[i + 1..]) {
        TailBeforeLower(t, i + 1);
      }
    }
  }

  lemma TailBeforeLower(t: string, j: nat)
    requires j <= |t| && HandleTail(Lower(t)[j..])
    ensures HandleTail(t[j..])
  {
    var tl := t[j..];
    var ll := Lower(t)[j..];
    forall k | 0 <= k < |tl| ensures HandleTailChar(tl[k]) {
      LowerCharKeepsClasses(tl[k]);
      assert ll[k] == LowerChar(tl[k]);
    }
  }

  /** Text without `/` admits no URL match; text without `@` admits no handle match. */
  lemma NoSlashNoUrl(t: string)
    requires '/' !in t
    ensures FirstUrl(t, 0).None?
  {
  }

  lemma NoAtNoHandle(t: string)
    requires '@' !in t
    ensures FirstHandle(t, 0).None?
  {
  }

  /** A URL match of a suffix (or of `p` + a suffix, when `p` cannot start one) is a URL
      match of the whole input. */
  lemma UrlInTail(s: string, k: nat, t: string, p: string)
    requires k <= |s| && t == s[k..]
    requires |p| == 1 && p[0] != '/'
    requires forall i :: 0 <= i ==> !UrlAt(s, i)
    ensures forall i :: 0 <= i ==> !UrlAt(t, i)
    ensures forall i :: 0 <= i ==> !UrlAt(p + t, i)
  {
    forall i | 0 <= i ensures !UrlAt(t, i) {
      if UrlAt(t, i) { assert UrlAt(s, k + i); }
    }
    forall i | 0 <= i ensures !UrlAt(p + t, i) {
      if UrlAt(p + t, i) {
        assert i >= 1;
        assert UrlAt(t, i - 1);
      }
    }
  }

  /** Converting a converted host changes nothing, so the host remembered after a
      login and offered again converts to itself. */
  lemma ConvertHostIdempotent(s: string)
    ensures ConvertHost(ConvertHost(s)) == ConvertHost(s)
  {
    if FirstUrl(s, 0).Some? {
      IdempotentOnUrl(s);
    } else if FirstHandle(s, 0).Some? {
      IdempotentOnHandle(s);
    } else {
      var r := ConvertHost(s);
      NoUrlAfterLower(s);
      NoHandleAfterLower(s);
      LowerFixesLowerCase(r);
    }
  }

  lemma IdempotentOnUrl(s: string)
    requires FirstUrl(s, 0).Some?
    ensures ConvertHost(ConvertHost(s)) == ConvertHost(s)
  {
    var r := ConvertHost(s);
    NoSlashNoUrl(r);
    NoAtNoHandle(r);
    LowerFixesLowerCase(r);
  }

  lemma IdempotentOnHandle(s: string)
    requires FirstUrl(s, 0).None? && FirstHandle(s, 0).Some?
    ensures ConvertHost(ConvertHost(s)) == ConvertHost(s)
  {
    var i := FirstHandle(s, 0).value;
    var r := ConvertHost(s);
    var h := if s[i] == ':' then ":" + s[i + 2..] else s[i + 1..];
    assert r == Lower(h);
    if s[i] == ':' {
      UrlInTail(s, i + 2, s[i + 2..], [':']);
    } else {
      UrlInTail(s, i + 1, s[i + 1..], [':']);
    }
    NoUrlAfterLower(h);
    NoAtNoHandle(r);
    LowerFixesLowerCase(r);
  }

  /** A handle `p@host`, where `p` does not end in a colon: the host after the last
      `@` is the result. */
  lemma HandleGivesHost(p: string, t: string)
    requires '/' !in p && '/' !in t && HandleTail(t)
    requires p == [] || p[|p| - 1] != ':'
    ensures ConvertHost(p + "@" + t) == Lower(t)
  {
    var s := p + "@" + t;
    assert '/' !in s;
    NoSlashNoUrl(s);
    NoAtInTail(t);
    assert s[|p|] == '@' && s[|p| + 1..] == t;
    assert HandleAt(s, |p|);
    forall j | 0 <= j < |p| ensures !HandleAt(s, j) {
      AtBlocksTail(s, j, |p|);
    }
    var i := FirstHandle(s, 0).value;
    assert i == |p|;
  }

  /** A handle `p:@host` (the optional colon of the pattern present): the colon is kept
      in front of the host. */
  lemma ColonHandleKeepsColon(p: string, t: string)
    requires '/' !in p && '/' !in t && HandleTail(t)
    ensures ConvertHost(p + ":@" + t) == Lower(":" + t)
  {
    var s := p + ":@" + t;
    assert '/' !in s;
    NoSlashNoUrl(s);
    NoAtInTail(t);
    assert s[|p|] == ':' && s[|p| + 1] == '@' && s[|p| + 2..] == t;
    assert HandleAt(s, |p|);
    forall j | 0 <= j < |p| ensures !HandleAt(s, j) {
      AtBlocksTail(s, j, |p| + 1);
    }
    var i := FirstHandle(s, 0).value;
    assert i == |p|;
  }

  /** An `@` at `k` (beyond the `:@` or `@` a match at `j` opens with) cuts off any
      match starting at `j`. */
  lemma AtBlocksTail(s: string, j: nat, k: nat)
    requires j < k < |s| && s[k] == '@'
    requires j + 1 == k ==> s[j] != ':'
    ensures !HandleAt(s, j)
  {
    assert s[j + 1..][k - j - 1] == '@';
    if j + 2 <= k {
      assert s[j + 2..][k - j - 2] == '@';
    }
  }

  /** The address field's rules: required and containing a `.`. */
  predicate AddressValid(address: string)
  {
    |address| >= 1 && '.' in address
  }

  datatype LoginAction =
    | MisskeyAuth(host: string)
    | MastodonAuth(host: string)
    | ShowError(message: string)

  /** The host remembered in local storage and what the page then does. */
  datatype LoginSubmit = LoginSubmit(storedServer: string, action: LoginAction)

  const DetectFailedMessage := "インスタンスタイプの検出に失敗しました!"

  function UnknownTypeMessage(t: string): string
  {
    "不明なインスタンスタイプ '" + t + "' です!"
  }

  /** `onSubmit`: nothing happens for an address the form rejects; otherwise the
      converted host is remembered and the detected type (`None` when detection
      failed) picks the authentication route. */
  function OnSubmit(address: string, detected: Option<string>): (r: Option<LoginSubmit>)
    ensures r.Some? <==> AddressValid(address)
    ensures r.Some? ==> r.value.storedServer == ConvertHost(address)
    ensures r.Some? && detected.Some? && detected.value in {"misskey", "cherrypick"} ==>
      r.value.action == MisskeyAuth(ConvertHost(address))
    ensures r.Some? && detected == Some("mastodon") ==> r.value.action == MastodonAuth(ConvertHost(address))
    ensures r.Some? && detected.Some? && detected.value !in {"misskey", "cherrypick", "mastodon"} ==>
      r.value.action == ShowError(UnknownTypeMessage(detected.value))
    ensures r.Some? && detected.None? ==> r.value.action == ShowError(DetectFailedMessage)
  {
    if !AddressValid(address) then None
    else
      var host := ConvertHost(address);
      var action :=
        match detected
        case None => ShowError(DetectFailedMessage)
        case Some(t) =>
          if t == "misskey" || t == "cherrypick" then MisskeyAuth(host)
          else if t == "mastodon" then MastodonAuth(host)
          else ShowError(UnknownTypeMessage(t));
      Some(LoginSubmit(host, action))
  }
}

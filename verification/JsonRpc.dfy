/**
 Notifications written by the builder and read back by the params scanner
 (src/ipc/tip_json.c): for which methods does `params` survive the trip?
 */
module JsonRpc {
  import opened Common
  import opened JsonText
  import opened JsonBuilder

  const HEAD: string := "{\"jsonrpc\":\"2.0\",\"method\":"
  const SEPARATOR: string := ",\"params\":"

  /** The text of a notification. */
  function Notify(method_: string, params: string): string {
    HEAD + Quoted(method_) + SEPARATOR + params + "}"
  }

  /** tip_json_build_notify; `params` is absent when the caller has none. */
  method BuildNotify(method_: string, params: Option<string>) returns (text: string)
    ensures text == Notify(method_, if params.Some? then params.value else "{}")
  {
    var b := new Builder();
    b.AppendRaw(HEAD);
    b.AppendString(method_);
    b.AppendRaw(SEPARATOR);
    if params.Some? {
      b.AppendRaw(params.value);
    } else {
      b.AppendRaw("{}");
    }
    b.AppendRaw("}");
    text := b.Steal();
    assert "" + HEAD == HEAD;
  }

  /** The opening quotation mark and the escaped text of the method. */
  function Opened(m: string): string {
    "\"" + Escape(m)
  }

  /** `"params"` can be read at the end of the method's own text. */
  predicate LooksLikeParams(m: string) {
    EndsWith("\"" + m, "\"params")
  }

  // ---------------------------------------------------------------- escaped text and its suffixes

  /** A longer escape ends in a character behind a backslash, '0' or '1', and holds a quotation mark only as `\"`. */
  lemma EscapeShape(c: char)
    ensures var e := EscapeChar(c);
      && (|e| == 1 ==> e == [c] && c != '\"')
      && (|e| > 1 ==> e[|e| - 2] == '\\' || e[|e| - 2] == '0' || e[|e| - 2] == '1')
      && (forall k :: 0 <= k < |e| && e[k] == '\"' ==> k == 1 && e[0] == '\\' && c == '\"')
  {
    assert forall n :: 0 <= n < 16 ==> HexDigit(n) != '\"' && HexValue(HexDigit(n)) == n;
  }

  /** In escaped text every quotation mark stands behind a backslash. */
  lemma {:induction false} QuotesEscaped(s: string, k: nat)
    requires k < |Escape(s)| && Escape(s)[k] == '\"'
    ensures k > 0 && Escape(s)[k - 1] == '\\'
  {
    EscapeShape(s[0]);
    var e := EscapeChar(s[0]);
    if k >= |e| {
      QuotesEscaped(s[1..], k - |e|);
    }
  }

  /** The last two characters of an escaped text, by its last character. */
  lemma LastTwo(init: string, c: char)
    ensures var f := Opened(init + [c]);
      if |EscapeChar(c)| == 1 then
        f == Opened(init) + [c]
      else
        |f| >= 2 && (f[|f| - 2] == '\\' || f[|f| - 2] == '0' || f[|f| - 2] == '1')
  {
    EscapeSnoc(init, c);
    EscapeShape(c);
    assert Opened(init + [c]) == Opened(init) + EscapeChar(c);
  }

  /** The letters of `"params"` are not escaped and are not part of any escape's end. */
  lemma LettersPlain(k: nat)
    requires 1 <= k <= 6
    ensures EscapeChar(PARAMS[k]) == [PARAMS[k]]
    ensures PARAMS[k] != '\"' && PARAMS[k - 1] != '\\' && PARAMS[k - 1] != '0' && PARAMS[k - 1] != '1'
  {
  }

  /** Escaping neither makes nor breaks an occurrence of the start of `"params"` at the end of the method. */
  lemma {:induction false} SuffixSurvivesEscaping(m: string, j: nat)
    requires 1 <= j <= 7
    ensures EndsWith(Opened(m), PARAMS[..j]) <==> EndsWith("\"" + m, PARAMS[..j])
    decreases j
  {
    if m == [] {
      assert Opened(m) == "\"" + m;
    } else {
      var init, c := m[..|m| - 1], m[|m| - 1];
      assert m == init + [c];
      if j == 1 {
        QuoteSurvivesEscaping(init, c);
        assert PARAMS[..1] == ['\"'];
      } else {
        LettersPlain(j - 1);
        LastTwo(init, c);
        SuffixSurvivesEscaping(init, j - 1);
        EndsInTwo(Opened(m), j);
        EndsInTwo("\"" + m, j);
        assert ("\"" + m) == ("\"" + init) + [c];
        if |EscapeChar(c)| == 1 {
          EndsInMore(Opened(init), c, j);
        }
        EndsInMore("\"" + init, c, j);
      }
    }
  }

  lemma QuoteSurvivesEscaping(init: string, c: char)
    ensures EndsWith(Opened(init + [c]), ['\"']) <==> EndsWith("\"" + (init + [c]), ['\"'])
  {
    LastOpened(init, c);
    EndsInChar(Opened(init + [c]), '\"');
    EndsInChar("\"" + (init + [c]), '\"');
  }

  lemma LastOpened(init: string, c: char)
    ensures var t := Opened(init + [c]);
      t != [] && (t[|t| - 1] == '\"' <==> c == '\"')
  {
    EscapeSnoc(init, c);
    assert Opened(init + [c]) == Opened(init) + EscapeChar(c);
    LastOfEscape(c);
  }

  lemma LastOfEscape(c: char)
    ensures EscapeChar(c)[|EscapeChar(c)| - 1] == '\"' <==> c == '\"'
  {
    EscapeShape(c);
  }

  lemma EndsInChar(s: string, c: char)
    ensures EndsWith(s, [c]) <==> s != [] && s[|s| - 1] == c
  {
    assert EndsWith(s, [c]) ==> s[|s| - 1 + 0] == [c][0];
  }

  lemma EndsInTwo(s: string, j: nat)
    requires 2 <= j <= 7
    ensures EndsWith(s, PARAMS[..j]) ==> |s| >= 2 && s[|s| - 2] == PARAMS[j - 2] && s[|s| - 1] == PARAMS[j - 1]
  {
    assert EndsWith(s, PARAMS[..j]) ==>
      s[|s| - j + (j - 1)] == PARAMS[..j][j - 1] && s[|s| - j + (j - 2)] == PARAMS[..j][j - 2];
  }

  lemma EndsInMore(s: string, c: char, j: nat)
    requires 2 <= j <= 7
    ensures EndsWith(s + [c], PARAMS[..j]) <==> EndsWith(s, PARAMS[..j - 1]) && c == PARAMS[j - 1]
  {
    var t, n := s + [c], j - 1;
    if EndsWith(t, PARAMS[..j]) {
      assert t[|t| - j + n] == PARAMS[..j][n];
      forall k | 0 <= k < n
        ensures s[|s| - n + k] == PARAMS[..n][k]
      {
        assert t[|t| - j + k] == PARAMS[..j][k];
      }
    }
    if EndsWith(s, PARAMS[..j - 1]) && c == PARAMS[j - 1] {
      forall k | 0 <= k < j
        ensures t[|t| - j + k] == PARAMS[..j][k]
      {
        assert k < n ==> s[|s| - n + k] == PARAMS[..n][k];
      }
    }
  }

  // ---------------------------------------------------------------- reading a notification

  /** Positions in the text of a notification. */
  function MethodEnd(m: string): nat {
    |HEAD| + |Quoted(m)|
  }

  /** The head holds no quotation mark in front of a 'p'. */
  lemma NoParamsInHead(i: nat)
    requires i + 1 < |HEAD|
    ensures HEAD[i] == '\"' ==> HEAD[i + 1] != 'p'
  {
  }

  lemma NotifyChars(m: string, params: string)
    ensures var t := Notify(m, params);
      var q := MethodEnd(m);
      && |HEAD| == 26 && |SEPARATOR| == 10 && |t| == q + 10 + |params| + 1
      && t[..26] == HEAD
      && t[26..q] == Quoted(m)
      && t[q..q + 10] == SEPARATOR
      && t[q + 10..q + 10 + |params|] == params
  {
  }

  /** A quotation mark in a quoted string is its first or last character, or escaped. */
  lemma QuotedQuotes(m: string, k: nat)
    requires k < |Quoted(m)| && Quoted(m)[k] == '\"'
    ensures k == 0 || k == |Quoted(m)| - 1 || Quoted(m)[k - 1] == '\\'
  {
    if 0 < k < |Quoted(m)| - 1 {
      assert Quoted(m)[k] == Escape(m)[k - 1];
      QuotesEscaped(m, k - 1);
    }
  }

  lemma CharAt(t: string, from: nat, end: nat, part: string, k: nat)
    requires from <= k < end <= |t| && t[from..end] == part
    ensures t[k] == part[k - from]
  {
    assert t[from..end][k - from] == t[k];
  }

  lemma NotInHead(m: string, params: string, i: nat)
    requires Occurs(Notify(m, params), PARAMS, i)
    ensures i >= 26
  {
    var t, q := Notify(m, params), MethodEnd(m);
    NotifyChars(m, params);
    OccursAt(t, PARAMS, i, 0);
    OccursAt(t, PARAMS, i, 1);
    if i < 26 {
      CharAt(t, 0, 26, HEAD, i);
      if i + 1 < 26 {
        CharAt(t, 0, 26, HEAD, i + 1);
        NoParamsInHead(i);
      }
    }
  }

  lemma NotInsideMethod(m: string, params: string, i: nat)
    requires 26 <= i && i + 7 < MethodEnd(m) && Occurs(Notify(m, params), PARAMS, i)
    ensures i + 8 == MethodEnd(m)
  {
    var t := Notify(m, params);
    OccursAt(t, PARAMS, i, 6);
    OccursAt(t, PARAMS, i, 7);
    MethodChar(m, params, i + 6);
    MethodChar(m, params, i + 7);
    QuotedQuotes(m, i + 7 - 26);
  }

  lemma MethodChar(m: string, params: string, i: nat)
    requires 26 <= i < MethodEnd(m)
    ensures i < |Notify(m, params)| && Notify(m, params)[i] == Quoted(m)[i - 26]
  {
    NotifyChars(m, params);
    CharAt(Notify(m, params), 26, MethodEnd(m), Quoted(m), i);
  }

  /**
   Up to the member name, `"params"` can only occur as the last characters of the
   method's text and its closing quotation mark.
   */
  lemma NoEarlierParams(m: string, params: string, i: nat)
    requires i <= MethodEnd(m) && Occurs(Notify(m, params), PARAMS, i)
    ensures i >= 26 && i + 8 == MethodEnd(m)
  {
    var t, q := Notify(m, params), MethodEnd(m);
    NotifyChars(m, params);
    NotInHead(m, params, i);
    if i + 7 < q {
      NotInsideMethod(m, params, i);
    } else {
      NotAcross(m, params, i);
    }
  }

  /** Behind the closing quotation mark comes a comma. */
  lemma NotAcross(m: string, params: string, i: nat)
    requires 26 <= i <= MethodEnd(m) <= i + 7
    ensures !Occurs(Notify(m, params), PARAMS, i)
  {
    var t, q := Notify(m, params), MethodEnd(m);
    NotifyChars(m, params);
    CharAt(t, q, q + 10, SEPARATOR, q);
    if Occurs(t, PARAMS, i) {
      OccursAt(t, PARAMS, i, q - i);
    }
  }

  /** The characters before the method's closing quotation mark are those of its opened text. */
  lemma MethodTail(m: string, params: string, k: nat)
    requires MethodEnd(m) >= 26 + 8 && k < 7
    ensures |Opened(m)| >= 7 && Notify(m, params)[MethodEnd(m) - 8 + k] == Opened(m)[|Opened(m)| - 7 + k]
  {
    var t, q := Notify(m, params), MethodEnd(m);
    NotifyChars(m, params);
    CharAt(t, 26, q, Quoted(m), q - 8 + k);
  }

  /** Whether `"params"` occurs there is a property of the method alone. */
  lemma ParamsInMethod(m: string, params: string)
    requires MethodEnd(m) >= 26 + 8 && Occurs(Notify(m, params), PARAMS, MethodEnd(m) - 8)
    ensures EndsWith(Opened(m), PARAMS[..7])
  {
    var n := |Opened(m)|;
    MethodTail(m, params, 0);
    forall k: nat | k < 7
      ensures Opened(m)[n - 7 + k] == PARAMS[..7][k]
    {
      ParamsCharInMethod(m, params, k);
    }
  }

  lemma ParamsCharInMethod(m: string, params: string, k: nat)
    requires MethodEnd(m) >= 26 + 8 && Occurs(Notify(m, params), PARAMS, MethodEnd(m) - 8) && k < 7
    ensures |Opened(m)| >= 7 && Opened(m)[|Opened(m)| - 7 + k] == PARAMS[k]
  {
    MethodTail(m, params, k);
    OccursAt(Notify(m, params), PARAMS, MethodEnd(m) - 8, k);
  }

  lemma MethodHoldsParams(m: string, params: string)
    requires EndsWith(Opened(m), PARAMS[..7])
    ensures MethodEnd(m) >= 26 + 8 && Occurs(Notify(m, params), PARAMS, MethodEnd(m) - 8)
  {
    var t, q := Notify(m, params), MethodEnd(m);
    NotifyChars(m, params);
    forall k: nat | k < 8
      ensures t[q - 8..q][k] == PARAMS[k]
    {
      MethodCharIsParams(m, params, k);
    }
  }

  lemma MethodCharIsParams(m: string, params: string, k: nat)
    requires EndsWith(Opened(m), PARAMS[..7]) && k < 8
    ensures MethodEnd(m) >= 26 + 8 && MethodEnd(m) <= |Notify(m, params)|
    ensures Notify(m, params)[MethodEnd(m) - 8 + k] == PARAMS[k]
  {
    NotifyChars(m, params);
    if k < 7 {
      MethodTail(m, params, k);
      assert Opened(m)[|Opened(m)| - 7 + k] == PARAMS[..7][k];
    } else {
      CharAt(Notify(m, params), 26, MethodEnd(m), Quoted(m), MethodEnd(m) - 1);
    }
  }

  /**
   The whole trip.  What the scanner reads from a notification is exactly the
   object that was put in, if and only if the method does not itself end in
   text that reads `"params"` once quoted; otherwise the message is rejected.
   */
  lemma NotifyRoundTrip(m: string, params: string)
    requires PlainObject(params)
    ensures var t := Notify(m, params);
      var v := MethodEnd(m) + 10;
      && t[v..v + |params|] == params
      && ExtractParams(t) == (if LooksLikeParams(m) then Malformed else Text(v, |params|))
  {
    var t, q := Notify(m, params), MethodEnd(m);
    NotifyChars(m, params);
    SuffixSurvivesEscaping(m, 7);
    assert PARAMS[..7] == "\"params";
    if LooksLikeParams(m) {
      MethodHoldsParams(m, params);
      FirstIs(m, params, q - 8);
      NoColon(t, q);
    } else {
      MemberName(m, params);
      FirstIs(m, params, q + 1);
      Separated(m, params);
      ParamsObjectExact(t, q + 1, q + 9, q + 10, q + 10 + |params|);
    }
  }

  lemma FirstIs(m: string, params: string, p: nat)
    requires Occurs(Notify(m, params), PARAMS, p)
    requires p + 8 == MethodEnd(m) || (p == MethodEnd(m) + 1 && !EndsWith(Opened(m), PARAMS[..7]))
    ensures Find(Notify(m, params), PARAMS) == Some(p)
  {
    var t, q := Notify(m, params), MethodEnd(m);
    forall i | 0 <= i < p
      ensures !Occurs(t, PARAMS, i)
    {
      if Occurs(t, PARAMS, i) {
        NoEarlierParams(m, params, i);
        if p == q + 1 {
          ParamsInMethod(m, params);
        }
      }
    }
    FirstOccurrence(t, PARAMS, p);
  }

  /** A comma follows the method. */
  lemma NoColon(t: string, q: nat)
    requires q < |t| && t[q] == ','
    ensures ValueStart(t, q) == None
  {
    assert t[q..][0] == ',';
  }

  lemma MemberName(m: string, params: string)
    ensures Occurs(Notify(m, params), PARAMS, MethodEnd(m) + 1)
  {
    var t, q := Notify(m, params), MethodEnd(m);
    NotifyChars(m, params);
    assert SEPARATOR[1..9] == PARAMS;
    assert t[q..q + 10][1..9] == t[q + 1..q + 9];
  }

  lemma Separated(m: string, params: string)
    requires params != [] && params[0] == '{'
    ensures LeadsTo(Notify(m, params), MethodEnd(m) + 1 + |PARAMS|, MethodEnd(m) + 9, MethodEnd(m) + 10)
  {
    var t, q := Notify(m, params), MethodEnd(m);
    NotifyChars(m, params);
    CharAt(t, q, q + 10, SEPARATOR, q + 9);
    CharAt(t, q + 10, q + 10 + |params|, params, q + 10);
  }

  // ---------------------------------------------------------------- the other members

  /** Whatever method and params are: the method is read back as the string it was, and the version is 2.0. */
  lemma MethodRoundTrip(m: string, params: string)
    ensures ExtractString(Notify(m, params), "method") == Some(Escape(m)) && Unescape(Escape(m)) == Some(m)
    ensures ExtractString(Notify(m, params), "jsonrpc") == Some("2.0")
  {
    EscapeRoundTrip(m);
    MethodRead(m, params);
    VersionRead(m, params);
  }

  lemma MethodRead(m: string, params: string)
    ensures ExtractString(Notify(m, params), "method") == Some(Escape(m))
  {
    var t := Notify(m, params);
    NotifyChars(m, params);
    HeadChars(t);
    CharAt(t, 26, MethodEnd(m), Quoted(m), 26);
    assert HEAD[17..25] == "\"method\"";
    assert Pattern("method") == "\"method\"";
    NamedInHead(t, Pattern("method"), 17);
    ValueFound(t, 25, 25, 26);
    QuotedAt(t, m, 26, MethodEnd(m));
  }

  lemma VersionRead(m: string, params: string)
    ensures ExtractString(Notify(m, params), "jsonrpc") == Some("2.0")
  {
    var t := Notify(m, params);
    NotifyChars(m, params);
    HeadChars(t);
    HeadStart();
    assert Pattern("jsonrpc") == "\"jsonrpc\"";
    NamedInHead(t, Pattern("jsonrpc"), 1);
    ValueFound(t, 10, 10, 11);
    VersionText(t);
    QuotedAt(t, "2.0", 11, 16);
  }

  lemma HeadStart()
    ensures HEAD[1..10] == "\"jsonrpc\"" && HEAD[11..16] == "\"2.0\""
  {
    var start := HEAD[..16];
    assert start == "{\"jsonrpc\":\"2.0\"";
    assert start[1..10] == "\"jsonrpc\"" && start[11..16] == "\"2.0\"";
    assert start[1..10] == HEAD[1..10] && start[11..16] == HEAD[11..16];
  }

  lemma VersionText(t: string)
    requires |t| > 26 && t[..26] == HEAD && |HEAD| == 26
    ensures t[11..16] == Quoted("2.0") && Escape("2.0") == "2.0"
  {
    HeadStart();
    assert t[11..16] == HEAD[11..16];
    assert "2.0"[1..] == ".0" && ".0"[1..] == "0" && "0"[1..] == "";
    assert Escape("0") == "0" && Escape(".0") == ".0";
  }

  lemma HeadChars(t: string)
    requires |t| > 26 && t[..26] == HEAD && |HEAD| == 26
    ensures forall i :: 0 <= i < 26 ==> t[i] == HEAD[i]
  {
    forall i | 0 <= i < 26
      ensures t[i] == HEAD[i]
    {
      CharAt(t, 0, 26, HEAD, i);
    }
  }

  /** In the head only two names and a version are quoted, and they begin differently. */
  lemma NamedInHead(t: string, pat: string, p: nat)
    requires |t| > 26 && t[..26] == HEAD && |HEAD| == 26 && forall i :: 0 <= i < 26 ==> t[i] == HEAD[i]
    requires p + |pat| <= 26 && HEAD[p..p + |pat|] == pat && |pat| > 1 && pat[0] == '\"'
    requires (p == 1 && pat[1] == 'j') || (p == 17 && pat[1] == 'm')
    ensures Find(t, pat) == Some(p)
  {
    assert t[p..p + |pat|] == HEAD[p..p + |pat|];
    forall i | 0 <= i < p
      ensures !Occurs(t, pat, i)
    {
      if Occurs(t, pat, i) {
        OccursAt(t, pat, i, 0);
        OccursAt(t, pat, i, 1);
      }
    }
    FirstOccurrence(t, pat, p);
  }
}

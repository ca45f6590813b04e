/**
 Where the brace scanner of the params extraction (src/ipc/tip_json.c) goes wrong.  It
 takes a quotation mark behind any backslash for an escaped one, so a string that
 ends in an escaped backslash leaves it inside a string where JSON is outside.
 */
module JsonSpan {
  import opened Common
  import opened JsonText

  // ---------------------------------------------------------------- the exact condition

  predicate NoQuote(c: string) {
    forall i :: 0 <= i < |c| ==> c[i] != '\"'
  }

  /** No string of `t` contains a quotation mark, and no backslash stands outside the strings. */
  predicate Simple(t: string)
    decreases |t|
  {
    t == [] ||
    if t[0] == '\"' then
      var n := StringLen(t[1..], false);
      NoQuote(t[1..][..n]) && (n < |t| - 1 ==> Simple(t[n + 2..]))
    else
      t[0] != '\\' && Simple(t[1..])
  }

  /** Characters the scanner passes from inside a string, `depth` braces deep. */
  function InString(u: string, prev: char, depth: nat): nat {
    var n := QuickLen(u, prev);
    if n < |u| then n + 1 + SpanLen(u[n + 1..], depth) else n
  }

  lemma InStringStep(u: string, prev: char, depth: nat)
    requires u != [] && (u[0] != '\"' || prev == '\\')
    ensures InString(u, prev, depth) == 1 + InString(u[1..], u[0], depth)
  {
    var n := QuickLen(u[1..], u[0]);
    assert n < |u[1..]| ==> u[1..][n + 1..] == u[n + 2..];
  }

  lemma OpensString(u: string, depth: nat)
    requires depth > 0 && u != [] && u[0] == '\"'
    ensures SpanLen(u, depth) == 1 + InString(u[1..], '\"', depth)
  {
    var n := QuickLen(u[1..], '\"');
    assert n < |u[1..]| ==> u[1..][n + 1..] == u[n + 2..];
  }

  /** Inside a string the scanner passes text without quotation marks. */
  lemma {:induction false} PassesText(c: string, v: string, prev: char, depth: nat)
    requires NoQuote(c)
    ensures InString(c + v, prev, depth) == |c| + InString(v, if c == [] then prev else c[|c| - 1], depth)
  {
    if c == [] {
      assert c + v == v;
    } else {
      assert (c + v)[1..] == c[1..] + v;
      InStringStep(c + v, prev, depth);
      PassesText(c[1..], v, c[0], depth);
    }
  }

  /** Outside strings it stops within such text, or passes it and arrives at some depth. */
  lemma {:induction false} CrossesText(c: string, v: string, depth: nat) returns (arrived: nat)
    requires NoQuote(c)
    ensures arrived == 0 ==> SpanLen(c + v, depth) <= |c|
    ensures arrived > 0 ==> SpanLen(c + v, depth) == |c| + SpanLen(v, arrived)
  {
    arrived := depth;
    if depth > 0 {
      if c == [] {
        assert c + v == v;
      } else {
        assert (c + v)[1..] == c[1..] + v;
        arrived := CrossesText(c[1..], v, Deeper(depth, c[0]));
      }
    }
  }

  lemma CutString(t: string, rest: string) returns (c: string, left: string)
    requires t != [] && t[0] == '\"' && StringLen(t[1..], false) < |t| - 1
    ensures var n := StringLen(t[1..], false);
      c == t[1..][..n] && left == t[n + 2..] && |t| == |c| + 2 + |left|
      && t + rest == "\"" + (c + ("\"" + (left + rest)))
      && (t + rest)[1..] == c + ("\"" + (left + rest)) && ("\"" + (left + rest))[1..] == left + rest
  {
    var n := StringLen(t[1..], false);
    c, left := t[1..][..n], t[n + 2..];
    assert t[1..] == c + ("\"" + left);
    assert (t + rest)[1..] == c + ("\"" + (left + rest));
  }

  /**
   Once the scanner is inside a string where JSON is outside, it never finds back:
   the next string of `t` is outside for it, and what is between strings inside.
   */
  lemma {:induction false} NeverFindsBack(t: string, depth: nat, prev: char, at: nat, rest: string)
    requires Closes(t, depth) && Simple(t) && rest != [] && prev != '\\' && at > 0
    ensures InString(t + rest, prev, at) != |t|
    decreases |t|
  {
    var u := t + rest;
    if t == [] {
      assert u == rest;
    } else if t[0] == '\"' {
      var c, left := CutString(t, rest);
      var v := "\"" + (left + rest);
      var arrived := CrossesText(c, v, at);
      assert InString(u, prev, at) == 1 + SpanLen(c + v, at);
      if arrived > 0 {
        OpensString(v, arrived);
        NeverFindsBack(left, depth, '\"', arrived, rest);
      }
    } else {
      assert u[1..] == t[1..] + rest;
      InStringStep(u, prev, at);
      NeverFindsBack(t[1..], Deeper(depth, t[0]), t[0], at, rest);
    }
  }

  /** A string without quotation marks: the scanner is outside behind it, unless its last character is a backslash. */
  lemma ReadsString(u: string, c: string, w: string, depth: nat)
    requires depth > 0 && NoQuote(c) && u == "\"" + (c + ("\"" + w))
    ensures SpanLen(u, depth)
         == 2 + |c| + if c != [] && c[|c| - 1] == '\\' then InString(w, '\"', depth) else SpanLen(w, depth)
  {
    var v := "\"" + w;
    var prev := if c == [] then '\"' else c[|c| - 1];
    assert u[1..] == c + v && v[1..] == w;
    OpensString(u, depth);
    PassesText(c, v, '\"', depth);
    if prev == '\\' {
      InStringStep(v, prev, depth);
    } else {
      assert QuickLen(v, prev) == 0;
    }
  }

  /** A string that ends in an escaped backslash makes the span wrong. */
  lemma {:induction false} FinalBackslashMisleads(t: string, depth: nat, rest: string)
    requires Closes(t, depth) && Simple(t) && rest != [] && !NoFinalBackslash(t)
    ensures SpanLen(t + rest, depth) != |t|
    decreases |t|
  {
    var u := t + rest;
    if t[0] == '\"' {
      var c, left := CutString(t, rest);
      ReadsString(u, c, left + rest, depth);
      if c != [] && c[|c| - 1] == '\\' {
        NeverFindsBack(left, depth, '\"', depth, rest);
      } else {
        FinalBackslashMisleads(left, depth, rest);
      }
    } else {
      assert u[1..] == t[1..] + rest;
      FinalBackslashMisleads(t[1..], Deeper(depth, t[0]), rest);
    }
  }

  /** For simple objects the span is exact if and only if no string ends in an escaped backslash. */
  lemma SpanExactIff(t: string, depth: nat, rest: string)
    requires Closes(t, depth) && Simple(t) && rest != []
    ensures SpanLen(t + rest, depth) == |t| <==> NoFinalBackslash(t)
  {
    if NoFinalBackslash(t) {
      AgreeIffNoFinalBackslash(t, depth, rest);
      AgreementGivesSpan(t, depth, rest);
    } else {
      FinalBackslashMisleads(t, depth, rest);
    }
  }

  /** So params extraction returns a simple object exactly, if and only if none of its strings ends so. */
  lemma ParamsExactIff(json: string, p: nat, colon: nat, v: nat, e: nat)
    requires Find(json, PARAMS) == Some(p) && LeadsTo(json, p + |PARAMS|, colon, v)
    requires v < e < |json| && json[v] == '{' && Closes(json[v + 1..e], 1) && Simple(json[v + 1..e])
    ensures ExtractParams(json) == Text(v, e - v) <==> NoFinalBackslash(json[v + 1..e])
  {
    ValueFound(json, p + |PARAMS|, colon, v);
    assert json[v..][1..] == json[v + 1..e] + json[e..];
    SpanExactIff(json[v + 1..e], 1, json[e..]);
  }

  // ---------------------------------------------------------------- beyond simple objects

  /** The scanner's string goes on as long as every quotation mark stands behind a backslash. */
  lemma {:induction false} QuickPasses(t: string, prev: char, k: nat)
    requires k <= |t|
    requires forall i {:trigger t[i]} :: 0 <= i < k && t[i] == '\"' ==> (if i == 0 then prev else t[i - 1]) == '\\'
    ensures QuickLen(t, prev) >= k
  {
    if k > 0 {
      QuickPasses(t[1..], t[0], k - 1);
    }
  }

  /** The last string of `t` ends in an escaped backslash, and it is the first to do so. */
  predicate OnlyLastStringBad(t: string)
    decreases |t|
  {
    t != [] &&
    if t[0] == '\"' then
      var n := StringLen(t[1..], false);
      n < |t| - 1 &&
      if n > 0 && t[n] == '\\' then
        forall i :: n + 2 <= i < |t| ==> t[i] != '\"'
      else
        OnlyLastStringBad(t[n + 2..])
    else
      OnlyLastStringBad(t[1..])
  }

  /** Then the scanner takes in text behind the object, for every such object and every message around it. */
  lemma {:induction false} BackslashOverrun(t: string, depth: nat, rest: string)
    requires Closes(t, depth) && OnlyLastStringBad(t) && rest != []
    ensures SpanLen(t + rest, depth) > |t|
    decreases |t|
  {
    var u := t + rest;
    if t[0] == '\"' {
      var n := StringLen(t[1..], false);
      assert u[1..] == t[1..] + rest;
      if n > 0 && t[n] == '\\' {
        EarlyQuotesEscaped(t[1..], false, '\"');
        forall i | 0 <= i < |t| - 1 && u[1..][i] == '\"'
          ensures (if i == 0 then '\"' else u[1..][i - 1]) == '\\'
        {
          assert u[1..][i] == t[1..][i] == t[i + 1];
        }
        QuickPasses(u[1..], '\"', |t| - 1);
      } else {
        QuickAgrees(t[1..], false, '\"', rest);
        assert u[n + 2..] == t[n + 2..] + rest;
        BackslashOverrun(t[n + 2..], depth, rest);
      }
    } else {
      assert u[1..] == t[1..] + rest;
      BackslashOverrun(t[1..], Deeper(depth, t[0]), rest);
    }
  }

  /** Inside a string every quotation mark is behind a backslash. */
  lemma {:induction false} EarlyQuotesEscaped(t: string, escaped: bool, prev: char)
    requires escaped ==> prev == '\\'
    ensures forall i {:trigger t[i]} :: 0 <= i < StringLen(t, escaped) && t[i] == '\"' ==>
      (if i == 0 then prev else t[i - 1]) == '\\'
  {
    if StringLen(t, escaped) > 0 {
      EarlyQuotesEscaped(t[1..], t[0] == '\\' && !escaped, t[0]);
      forall i | 0 <= i < StringLen(t, escaped) && t[i] == '\"'
        ensures (if i == 0 then prev else t[i - 1]) == '\\'
      {
        if i > 0 {
          assert t[1..][i - 1] == t[i];
          assert i > 1 ==> t[1..][i - 2] == t[i - 1];
        }
      }
    }
  }

  /** An empty name, and a string of one backslash. */
  const BAD: string := "\"\":\"\\\\\"}"

  lemma BadCloses()
    ensures Closes(BAD, 1) && OnlyLastStringBad(BAD)
  {
    assert BAD[1..][0] == '\"' && BAD[2..] == ":\"\\\\\"}" && BAD[2..][1..] == "\"\\\\\"}";
    var u := "\"\\\\\"}";
    assert u[1..] == "\\\\\"}" && u[1..][1..] == "\\\"}" && u[1..][1..][1..] == "\"}";
    assert StringLen("\"}", false) == 0 && StringLen("\\\"}", true) == 1 && StringLen("\\\\\"}", false) == 2;
    assert u[4..] == "}" && "}"[1..] == [];
  }

  lemma ObjectLen(t: string)
    ensures ValueLen("{" + t) == 1 + SpanLen(t, 1)
  {
    assert ("{" + t)[1..] == t;
  }

  /** For instance `{"":"\\"}` followed by one more brace. */
  lemma BackslashOverrunExample()
    ensures Closes(BAD, 1) && OnlyLastStringBad(BAD)
    ensures |"{" + BAD| == 9 && ValueLen("{" + BAD + "}") > 9
  {
    BadCloses();
    BackslashOverrun(BAD, 1, "}");
    ObjectLen(BAD + "}");
    assert "{" + BAD + "}" == "{" + (BAD + "}");
  }

  // ---------------------------------------------------------------- one name with a final backslash, two values

  /** A member name that ends in an escaped backslash, up to the quotation mark that opens the value. */
  const NAME: string := "\"a\\\\\":\""

  /** Behind it the scanner is outside strings where JSON is inside one. */
  lemma NameMisleads(v: string)
    ensures SpanLen(NAME + v, 1) == |NAME| + SpanLen(v, 1)
  {
    var u := NAME + v;
    var w := "\"" + (":" + ("\"" + v));
    assert u[1..] == "a\\\\" + w;
    OpensString(u, 1);
    PassesText("a\\\\", w, '\"', 1);
    InStringStep(w, '\\', 1);
    InStringStep(w[1..], '\"', 1);
    assert w[1..][1..] == "\"" + v && ("\"" + v)[1..] == v;
  }

  lemma NameText(v: string)
    ensures StringLen((NAME + v)[1..], false) == 3 && (NAME + v)[4] == '\"' && (NAME + v)[3] == '\\'
    ensures (NAME + v)[5..] == ":" + ("\"" + v) && (NAME + v)[1..][..3] == "a\\\\"
  {
    var t := (NAME + v)[1..];
    assert t[3] == '\"' && t[2] == '\\' && t[1] == '\\' && t[0] == 'a';
    assert StringLen(t[3..], false) == 0 && t[2..][1..] == t[3..] && t[1..][1..] == t[2..];
    assert StringLen(t[2..], true) == 1 && StringLen(t[1..], false) == 2;
  }

  /** With a value behind it, the text is what the value makes it. */
  lemma NameAndValue(v: string)
    ensures Closes(NAME + v, 1) <==> Closes("\"" + v, 1)
    ensures Simple(NAME + v) <==> Simple("\"" + v)
    ensures !NoFinalBackslash(NAME + v)
  {
    NameText(v);
    var t := ":" + ("\"" + v);
    assert t[1..] == "\"" + v;
    assert Closes(t, 1) <==> Closes("\"" + v, 1);
    assert Simple(t) <==> Simple("\"" + v);
  }

  lemma NamedValue(v: string, rest: string)
    ensures Closes(NAME + v, 1) <==> Closes("\"" + v, 1)
    ensures Simple(NAME + v) <==> Simple("\"" + v)
    ensures !NoFinalBackslash(NAME + v)
    ensures SpanLen(NAME + v + rest, 1) == |NAME| + SpanLen(v + rest, 1)
  {
    NameAndValue(v);
    NameMisleads(v + rest);
    assert NAME + v + rest == NAME + (v + rest);
  }

  /** `{"a\\":"}"}` is cut off inside its value. */
  lemma TruncatedExample(rest: string)
    ensures var t := NAME + "}\"}";
      && Closes(t, 1) && Simple(t) && !NoFinalBackslash(t)
      && SpanLen(t + rest, 1) < |t|
  {
    var v := "}\"}";
    NamedValue(v, rest);
    ClosesAtOnce(v + rest);
    CutText();
    assert "\"" + v == "\"}\"}";
  }

  lemma ClosesAtOnce(u: string)
    requires u != [] && u[0] == '}'
    ensures SpanLen(u, 1) == 1
  {
    assert SpanLen(u[1..], 0) == 0;
  }

  lemma CutText()
    ensures var v := "\"}\"}"; Closes(v, 1) && Simple(v)
  {
    var v := "\"}\"}";
    assert v[1..] == "}\"}" && v[1..][1..] == "\"}" && v[3..] == "}" && v[3..][1..] == [];
    assert StringLen(v[1..][1..], false) == 0 && StringLen(v[1..], false) == 1;
    assert v[1..][..1] == "}";
  }

  /** `{"a\\":"x\"y"}` is read exactly all the same: a quotation mark in its value sets the scanner right again. */
  lemma MendedExample(rest: string)
    ensures var t := NAME + "x\\\"y\"}";
      && Closes(t, 1) && !NoFinalBackslash(t) && !Simple(t)
      && SpanLen(t + rest, 1) == |t|
  {
    var v := "x\\\"y\"}";
    NamedValue(v, rest);
    ValueMends(rest);
    ValueText();
    assert "\"" + v == "\"x\\\"y\"}";
  }

  lemma ValueText()
    ensures var v := "\"x\\\"y\"}"; Closes(v, 1) && !Simple(v)
  {
    var v := "x\\\"y\"}";
    assert v[4..] == "\"}" && v[5..] == "}" && v[3..] == "y\"}" && v[2..] == "\"y\"}" && v[1..] == "\\\"y\"}";
    assert StringLen(v[4..], false) == 0 && StringLen(v[3..], false) == 1 && StringLen(v[2..], true) == 2;
    assert StringLen(v[1..], false) == 3 && StringLen(v, false) == 4;
    assert v[5..][1..] == [] && v[..4][2] == '\"';
    assert ("\"" + v)[1..] == v && "\"" + v == "\"x\\\"y\"}";
  }

  /** From inside a string: its end and the closing brace. */
  lemma EndsObject(rest: string)
    ensures InString("\"" + ("}" + rest), 'y', 1) == 2
  {
    var v := "}" + rest;
    var u := "\"" + v;
    assert u[1..] == v && v[1..] == rest;
    assert SpanLen(rest, 0) == 0;
    assert QuickLen(u, 'y') == 0;
  }

  lemma ValueMends(rest: string)
    ensures SpanLen("x\\\"y\"}" + rest, 1) == 6
  {
    var x := "\"" + ("}" + rest);
    var w := "\"" + ("y" + x);
    assert "x\\\"y\"}" + rest == "x\\" + w;
    EndsObject(rest);
    PassesText("y", x, '\"', 1);
    assert w[1..] == "y" + x;
    OpensString(w, 1);
    TwoOutside(w);
  }

  lemma TwoOutside(w: string)
    ensures SpanLen("x\\" + w, 1) == 2 + SpanLen(w, 1)
  {
    OutsideStep("x\\" + w);
    assert ("x\\" + w)[1..] == "\\" + w;
    OutsideStep("\\" + w);
    assert ("\\" + w)[1..] == w;
  }

  lemma OutsideStep(u: string)
    requires u != [] && u[0] != '\"' && u[0] != '{' && u[0] != '}'
    ensures SpanLen(u, 1) == 1 + SpanLen(u[1..], 1)
  {
  }
}

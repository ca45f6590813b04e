/**
 The JSON text layer of the IPC protocol (src/ipc/tip_json.c): the string
 escaper, the string and object scanners, as functions on strings.  A C string is
 a `string` without '\0'; each character stands for one byte.
 */
module JsonText {
  import opened Common

  predicate EndsWith(s: string, suffix: string) {
    |suffix| <= |s| && forall k {:trigger suffix[k]} :: 0 <= k < |suffix| ==> s[|s| - |suffix| + k] == suffix[k]
  }

  // ---------------------------------------------------------------- escaping

  function HexDigit(n: nat): (c: char)
    requires n < 16
    ensures n < 2 ==> c == "01"[n]
    ensures HexValue(c) == n
  {
    if n < 10 then '0' + n as char else 'a' + (n - 10) as char
  }

  /** Value of a hexadecimal digit, 16 for any other character. */
  function HexValue(c: char): (n: nat)
    ensures n <= 16
  {
    if '0' <= c <= '9' then (c - '0') as nat
    else if 'a' <= c <= 'f' then (c - 'a') as nat + 10
    else if 'A' <= c <= 'F' then (c - 'A') as nat + 10
    else 16
  }

  function EscapeChar(c: char): string {
    if c == '\"' then "\\\""
    else if c == '\\' then "\\\\"
    else if c == 8 as char then "\\b"
    else if c == 12 as char then "\\f"
    else if c == '\n' then "\\n"
    else if c == '\r' then "\\r"
    else if c == '\t' then "\\t"
    else if c < ' ' then "\\u00" + [HexDigit(c as nat / 16), HexDigit(c as nat % 16)]
    else [c]
  }

  function Escape(s: string): string {
    if s == [] then [] else EscapeChar(s[0]) + Escape(s[1..])
  }

  /** What the builder appends for a string value. */
  function Quoted(s: string): string {
    "\"" + Escape(s) + "\""
  }

  // ---------------------------------------------------------------- unescaping, section 7 of RFC 8259

  /** UTF-8 of one escaped code unit; a surrogate half alone is not a character. */
  function Utf8(u: nat): Option<string>
    requires u < 0x1_0000
  {
    if u < 0x80 then Some([u as char])
    else if u < 0x800 then Some([(0xc0 + u / 64) as char, (0x80 + u % 64) as char])
    else if 0xd800 <= u < 0xe000 then None
    else Some([(0xe0 + u / 4096) as char, (0x80 + u / 64 % 64) as char, (0x80 + u % 64) as char])
  }

  function ShortEscape(c: char): Option<char> {
    if c == '\"' || c == '\\' || c == '/' then Some(c)
    else if c == 'b' then Some(8 as char)
    else if c == 'f' then Some(12 as char)
    else if c == 'n' then Some('\n')
    else if c == 'r' then Some('\r')
    else if c == 't' then Some('\t')
    else None
  }

  function Prepend(s: string, r: Option<string>): Option<string> {
    if r.Some? then Some(s + r.value) else None
  }

  /** The string denoted by the text between two quotation marks, if that text is well formed. */
  function Unescape(t: string): Option<string> {
    if t == [] then
      Some([])
    else if t[0] == '\"' || t[0] < ' ' then
      None
    else if t[0] != '\\' then
      Prepend([t[0]], Unescape(t[1..]))
    else if |t| >= 2 && ShortEscape(t[1]).Some? then
      Prepend([ShortEscape(t[1]).value], Unescape(t[2..]))
    else if |t| >= 6 && t[1] == 'u' && HexValue(t[2]) < 16 && HexValue(t[3]) < 16
            && HexValue(t[4]) < 16 && HexValue(t[5]) < 16 then
      var u := HexValue(t[2]) * 4096 + HexValue(t[3]) * 256 + HexValue(t[4]) * 16 + HexValue(t[5]);
      if Utf8(u).Some? then Prepend(Utf8(u).value, Unescape(t[6..])) else None
    else
      None
  }

  lemma UnescapeShort(e: char, c: char, t: string)
    requires ShortEscape(e) == Some(c)
    ensures Unescape(['\\', e] + t) == Prepend([c], Unescape(t))
  {
    assert (['\\', e] + t)[2..] == t;
  }

  lemma UnescapeControl(c: char, t: string)
    requires c < ' '
    ensures Unescape("\\u00" + [HexDigit(c as nat / 16), HexDigit(c as nat % 16)] + t) == Prepend([c], Unescape(t))
  {
    var all := "\\u00" + [HexDigit(c as nat / 16), HexDigit(c as nat % 16)] + t;
    assert all[6..] == t;
    assert all[1] == 'u' && all[2] == '0' && all[3] == '0';
    assert HexValue(all[4]) == c as nat / 16 && HexValue(all[5]) == c as nat % 16;
  }

  /** One escaped character decodes to itself, whatever follows. */
  lemma UnescapeChar(c: char, t: string)
    ensures Unescape(EscapeChar(c) + t) == Prepend([c], Unescape(t))
  {
    var e := EscapeChar(c);
    if |e| == 6 {
      UnescapeControl(c, t);
    } else if |e| == 2 {
      assert e == ['\\', e[1]];
      UnescapeShort(e[1], c, t);
    } else {
      assert (e + t)[1..] == t;
    }
  }

  /** Decoding what the escaper wrote gives the string back. */
  lemma {:induction false} EscapeRoundTrip(s: string)
    ensures Unescape(Escape(s)) == Some(s)
  {
    if s != [] {
      UnescapeChar(s[0], Escape(s[1..]));
      EscapeRoundTrip(s[1..]);
      assert s == [s[0]] + s[1..];
    }
  }

  lemma {:induction false} EscapeAppend(a: string, b: string)
    ensures Escape(a + b) == Escape(a) + Escape(b)
  {
    if a == [] {
      assert a + b == b;
    } else {
      assert (a + b)[1..] == a[1..] + b;
      EscapeAppend(a[1..], b);
    }
  }

  lemma EscapeSnoc(s: string, c: char)
    ensures Escape(s + [c]) == Escape(s) + EscapeChar(c)
  {
    EscapeAppend(s, [c]);
    assert [c][1..] == [];
    assert Escape([c]) == EscapeChar(c);
  }

  // ---------------------------------------------------------------- scanning

  predicate IsSpace(c: char) {
    c == ' ' || '\t' <= c <= '\r'
  }

  /** Length of the leading white space. */
  function SpaceLen(t: string): (n: nat)
    ensures n <= |t|
    ensures n < |t| ==> !IsSpace(t[n])
  {
    if t != [] && IsSpace(t[0]) then 1 + SpaceLen(t[1..]) else 0
  }

  predicate AllSpace(w: string) {
    forall i :: 0 <= i < |w| ==> IsSpace(w[i])
  }

  lemma {:induction false} SpaceSkipped(s: string, from: nat, end: nat)
    requires from <= end < |s| && AllSpace(s[from..end]) && !IsSpace(s[end])
    ensures SpaceLen(s[from..]) == end - from
    decreases end - from
  {
    if from < end {
      assert s[from..end][0] == s[from];
      assert s[from..][1..] == s[from + 1..];
      assert s[from..end][1..] == s[from + 1..end];
      SpaceSkipped(s, from + 1, end);
    }
  }

  /** Characters before the quotation mark that ends a JSON string, or all of `t` if there is none. */
  function StringLen(t: string, escaped: bool): (n: nat)
    ensures n <= |t|
    ensures n < |t| ==> t[n] == '\"'
  {
    if t == [] || (t[0] == '\"' && !escaped) then 0 else 1 + StringLen(t[1..], t[0] == '\\' && !escaped)
  }

  /** The scanner stops exactly behind the escaped text of any string. */
  lemma {:induction false} ScansEscaped(s: string, rest: string)
    ensures StringLen(Escape(s) + ("\"" + rest), false) == |Escape(s)|
  {
    if s == [] {
      assert Escape(s) + ("\"" + rest) == "\"" + rest;
    } else {
      var tail := Escape(s[1..]) + ("\"" + rest);
      assert Escape(s) + ("\"" + rest) == EscapeChar(s[0]) + tail;
      ScansEscaped(s[1..], rest);
      ScansChar(s[0], tail);
    }
  }

  lemma ScansChar(c: char, tail: string)
    ensures StringLen(EscapeChar(c) + tail, false) == |EscapeChar(c)| + StringLen(tail, false)
  {
    EscapeIsUnit(c);
    ScansUnit(EscapeChar(c), tail);
  }

  /** One plain character, or a backslash, any character and plain ones. */
  predicate Unit(e: string) {
    if |e| == 1 then e[0] != '\"' && e[0] != '\\'
    else |e| > 1 && e[0] == '\\' && forall i :: 2 <= i < |e| ==> e[i] != '\"' && e[i] != '\\'
  }

  lemma EscapeIsUnit(c: char)
    ensures Unit(EscapeChar(c))
  {
    var e := EscapeChar(c);
    if |e| > 2 {
      assert e[2] == '0' && e[3] == '0' && HexValue(e[4]) < 16 && HexValue(e[5]) < 16;
    }
  }

  lemma ScansUnit(e: string, tail: string)
    requires Unit(e)
    ensures StringLen(e + tail, false) == |e| + StringLen(tail, false)
  {
    if |e| == 1 {
      assert (e + tail)[1..] == tail;
    } else {
      ScansPair(e[1], e[2..] + tail);
      assert e + tail == ['\\', e[1]] + (e[2..] + tail);
      PlainScan(e[2..], tail);
    }
  }

  /** A backslash takes the next character with it. */
  lemma ScansPair(c: char, tail: string)
    ensures StringLen(['\\', c] + tail, false) == 2 + StringLen(tail, false)
  {
    var all := ['\\', c] + tail;
    assert all[1..][0] == c && all[1..][1..] == tail;
  }

  /** Characters that are neither quotation mark nor backslash are passed one by one. */
  lemma {:induction false} PlainScan(plain: string, tail: string)
    requires forall i :: 0 <= i < |plain| ==> plain[i] != '\"' && plain[i] != '\\'
    ensures StringLen(plain + tail, false) == |plain| + StringLen(tail, false)
  {
    if plain == [] {
      assert plain + tail == tail;
    } else {
      assert (plain + tail)[1..] == plain[1..] + tail;
      PlainScan(plain[1..], tail);
    }
  }

  // ---------------------------------------------------------------- strstr

  predicate Occurs(s: string, pat: string, i: nat) {
    i + |pat| <= |s| && s[i..i + |pat|] == pat
  }

  /** First occurrence at or after `from`. */
  function FindFrom(s: string, pat: string, from: nat): (r: Option<nat>)
    ensures r.Some? ==> from <= r.value && Occurs(s, pat, r.value)
    ensures r.Some? ==> forall i :: from <= i < r.value ==> !Occurs(s, pat, i)
    ensures r.None? ==> forall i :: from <= i ==> !Occurs(s, pat, i)
    decreases |s| - from
  {
    if Occurs(s, pat, from) then Some(from)
    else if from >= |s| then None
    else FindFrom(s, pat, from + 1)
  }

  function Find(s: string, pat: string): Option<nat> {
    FindFrom(s, pat, 0)
  }

  lemma OccursAt(s: string, pat: string, i: nat, k: nat)
    requires Occurs(s, pat, i) && k < |pat|
    ensures s[i + k] == pat[k]
  {
    assert s[i + k] == s[i..i + |pat|][k];
  }

  lemma FirstOccurrence(s: string, pat: string, i: nat)
    requires Occurs(s, pat, i) && forall j :: 0 <= j < i ==> !Occurs(s, pat, j)
    ensures Find(s, pat) == Some(i)
  {
  }

  // ---------------------------------------------------------------- string members

  const KEY_LIMIT: nat := 100

  /** Where the value starts behind a member name that ends at `from`. */
  function ValueStart(json: string, from: nat): (r: Option<nat>)
    requires from <= |json|
    ensures r.Some? ==> r.value <= |json|
  {
    var a := from + SpaceLen(json[from..]);
    if a == |json| || json[a] != ':' then None else Some(a + 1 + SpaceLen(json[a + 1..]))
  }

  /** White space, a colon at `colon` and white space lead from `from` to `v`. */
  predicate LeadsTo(json: string, from: nat, colon: nat, v: nat) {
    && from <= colon < v < |json| && json[colon] == ':' && !IsSpace(json[v])
    && AllSpace(json[from..colon]) && AllSpace(json[colon + 1..v])
  }

  lemma ValueFound(json: string, from: nat, colon: nat, v: nat)
    requires LeadsTo(json, from, colon, v)
    ensures ValueStart(json, from) == Some(v)
  {
    SpaceSkipped(json, from, colon);
    SpaceSkipped(json, colon + 1, v);
  }

  function Pattern(key: string): (pat: string)
    ensures |pat| == |key| + 2 && pat[0] == '\"'
  {
    "\"" + key + "\""
  }

  /** Where the value of the first member named by `pat` starts. */
  function MemberStart(json: string, pat: string): (r: Option<nat>)
    ensures r.Some? ==> r.value <= |json|
  {
    match Find(json, pat)
    case None => None
    case Some(p) => ValueStart(json, p + |pat|)
  }

  /** tip_json_extract_string: the raw text of a string member. */
  function ExtractString(json: string, key: string): Option<string> {
    if |key| > KEY_LIMIT then None
    else
      match MemberStart(json, Pattern(key))
      case None => None
      case Some(v) => StringAt(json[v..])
  }

  function StringAt(v: string): Option<string> {
    if v == [] || v[0] != '\"' then None
    else
      var n := StringLen(v[1..], false);
      if n == |v[1..]| then None else Some(v[1..][..n])
  }

  /** Text without a quotation mark cannot contain a pattern that starts with one. */
  lemma NoQuoteBefore(s: string, pat: string, p: nat)
    requires pat != [] && pat[0] == '\"' && Occurs(s, pat, p)
    requires forall i :: 0 <= i < p ==> s[i] != '\"'
    ensures Find(s, pat) == Some(p)
  {
    forall i | 0 <= i < p
      ensures !Occurs(s, pat, i)
    {
      if Occurs(s, pat, i) {
        OccursAt(s, pat, i, 0);
      }
    }
    FirstOccurrence(s, pat, p);
  }

  /**
   The first member of an object, in any spacing: "{" and white space up to the
   name at `p`, the value from `v` to `e`.  Extraction returns the value's
   escaped text, and decoding it returns the value.
   */
  lemma FirstMemberRoundTrip(json: string, key: string, value: string, p: nat, colon: nat, v: nat, e: nat)
    requires |key| <= KEY_LIMIT && 0 < p && Occurs(json, Pattern(key), p)
    requires json[0] == '{' && AllSpace(json[1..p])
    requires LeadsTo(json, p + |key| + 2, colon, v) && v <= e <= |json| && json[v..e] == Quoted(value)
    ensures ExtractString(json, key) == Some(Escape(value))
    ensures Unescape(Escape(value)) == Some(value)
  {
    FirstMember(json, Pattern(key), p, colon, v);
    QuotedAt(json, value, v, e);
    EscapeRoundTrip(value);
  }

  lemma FirstMember(json: string, pat: string, p: nat, colon: nat, v: nat)
    requires 0 < p && Occurs(json, pat, p) && pat != [] && pat[0] == '\"'
    requires json[0] == '{' && AllSpace(json[1..p]) && LeadsTo(json, p + |pat|, colon, v)
    ensures MemberStart(json, pat) == Some(v)
  {
    NoQuoteInSpace(json, p);
    NoQuoteBefore(json, pat, p);
    ValueFound(json, p + |pat|, colon, v);
  }

  lemma NoQuoteInSpace(json: string, p: nat)
    requires 0 < p <= |json| && json[0] == '{' && AllSpace(json[1..p])
    ensures forall i :: 0 <= i < p ==> json[i] != '\"'
  {
    forall i | 0 < i < p
      ensures json[i] != '\"'
    {
      assert json[1..p][i - 1] == json[i];
    }
  }

  lemma QuotedAt(json: string, value: string, v: nat, e: nat)
    requires v <= e <= |json| && json[v..e] == Quoted(value)
    ensures StringAt(json[v..]) == Some(Escape(value))
  {
    assert json[v..] == json[v..e] + json[e..];
    QuotedRead(value, json[e..]);
  }

  /** Reading a string value the builder wrote, whatever follows it. */
  lemma QuotedRead(value: string, rest: string)
    ensures StringAt(Quoted(value) + rest) == Some(Escape(value))
  {
    var v := Quoted(value) + rest;
    assert v[1..] == Escape(value) + ("\"" + rest);
    ScansEscaped(value, rest);
  }

  // ---------------------------------------------------------------- the params object

  /** Characters of a string as the params scanner sees it: it ends at a quotation mark not behind a backslash. */
  function QuickLen(t: string, prev: char): (n: nat)
    ensures n <= |t|
    ensures n < |t| ==> t[n] == '\"'
  {
    if t == [] || (t[0] == '\"' && prev != '\\') then 0 else 1 + QuickLen(t[1..], t[0])
  }

  function Deeper(depth: nat, c: char): nat
    requires depth > 0
  {
    if c == '{' then depth + 1 else if c == '}' then depth - 1 else depth
  }

  /** Characters the scanner passes until `depth` open braces are closed. */
  function SpanLen(t: string, depth: nat): (n: nat)
    ensures n <= |t|
    decreases |t|
  {
    if t == [] || depth == 0 then
      0
    else if t[0] == '\"' then
      var n := 1 + QuickLen(t[1..], '\"');
      var m := if n < |t| then n + 1 else n;
      m + SpanLen(t[m..], depth)
    else
      1 + SpanLen(t[1..], Deeper(depth, t[0]))
  }

  /**
   `t` closes `depth` open braces exactly with its last character, where braces
   inside strings do not count and strings end as section 7 of RFC 8259 says.
   Every JSON object is "{" and a text that closes one brace.
   */
  predicate Closes(t: string, depth: nat)
    decreases |t|
  {
    if t == [] then
      depth == 0
    else
      && depth > 0
      && if t[0] == '\"' then
           var n := StringLen(t[1..], false);
           n < |t| - 1 && Closes(t[n + 2..], depth)
         else
           Closes(t[1..], Deeper(depth, t[0]))
  }

  /** No string in `t` ends in an escaped backslash. */
  predicate NoFinalBackslash(t: string)
    decreases |t|
  {
    t == [] ||
    if t[0] == '\"' then
      var n := StringLen(t[1..], false);
      (n > 0 ==> t[n] != '\\') && (n < |t| - 1 ==> NoFinalBackslash(t[n + 2..]))
    else
      NoFinalBackslash(t[1..])
  }

  /** The scanner ends every string of `t` where JSON ends it. */
  predicate StringsAgree(t: string, rest: string)
    decreases |t|
  {
    t == [] ||
    if t[0] == '\"' then
      var n := StringLen(t[1..], false);
      QuickLen(t[1..] + rest, '\"') == n && (n < |t| - 1 ==> StringsAgree(t[n + 2..], rest))
    else
      StringsAgree(t[1..], rest)
  }

  /** One string: the two scanners agree exactly when its last character is no backslash. */
  lemma {:induction false} QuickAgrees(t: string, escaped: bool, prev: char, rest: string)
    requires var n := StringLen(t, escaped); n < |t|
    requires escaped ==> prev == '\\'
    ensures var n := StringLen(t, escaped);
      QuickLen(t + rest, prev) == n <==> (if n == 0 then prev != '\\' else t[n - 1] != '\\')
  {
    var n := StringLen(t, escaped);
    assert (t + rest)[1..] == t[1..] + rest;
    if n > 0 {
      QuickAgrees(t[1..], t[0] == '\\' && !escaped, t[0], rest);
    }
  }

  /** Where the braces close: the scanner reads all strings right iff none ends in an escaped backslash. */
  lemma {:induction false} AgreeIffNoFinalBackslash(t: string, depth: nat, rest: string)
    requires Closes(t, depth)
    ensures StringsAgree(t, rest) <==> NoFinalBackslash(t)
    decreases |t|
  {
    if t != [] {
      if t[0] == '\"' {
        QuickAgrees(t[1..], false, '\"', rest);
        AgreeIffNoFinalBackslash(t[StringLen(t[1..], false) + 2..], depth, rest);
      } else {
        AgreeIffNoFinalBackslash(t[1..], Deeper(depth, t[0]), rest);
      }
    }
  }

  /** If it reads all strings right, the span it finds is exactly the object. */
  lemma {:induction false} AgreementGivesSpan(t: string, depth: nat, rest: string)
    requires Closes(t, depth) && StringsAgree(t, rest)
    ensures SpanLen(t + rest, depth) == |t|
    decreases |t|
  {
    if t != [] {
      if t[0] == '\"' {
        var n := StringLen(t[1..], false);
        assert (t + rest)[1..] == t[1..] + rest;
        assert (t + rest)[n + 2..] == t[n + 2..] + rest;
        AgreementGivesSpan(t[n + 2..], depth, rest);
      } else {
        assert (t + rest)[1..] == t[1..] + rest;
        AgreementGivesSpan(t[1..], Deeper(depth, t[0]), rest);
      }
    }
  }

  const PARAMS: string := "\"params\""

  datatype Params = Malformed | Absent | Text(start: nat, len: nat)

  /** Length of a scalar value: up to the next comma or closing brace. */
  function ScalarLen(t: string): (n: nat)
    ensures n <= |t|
  {
    if t == [] || t[0] == ',' || t[0] == '}' then 0 else 1 + ScalarLen(t[1..])
  }

  /** tip_json_extract_params. */
  function ExtractParams(json: string): Params {
    match Find(json, PARAMS)
    case None => Absent
    case Some(p) =>
      match ValueStart(json, p + |PARAMS|)
      case None => Malformed
      case Some(v) => Text(v, ValueLen(json[v..]))
  }

  /** Length of a params value: an object by its braces, anything else as a scalar. */
  function ValueLen(v: string): nat {
    if v != [] && v[0] == '{' then 1 + SpanLen(v[1..], 1) else ScalarLen(v)
  }

  // ---------------------------------------------------------------- both extractions, told from the text alone

  /** The name of the member first occurs at `p`. */
  predicate NamedAt(json: string, pat: string, p: int) {
    0 <= p && Occurs(json, pat, p) && forall i :: 0 <= i < p ==> !Occurs(json, pat, i)
  }

  /** Only white space from `from` to `end`, where the text ends or something else stands. */
  predicate SpaceUpTo(json: string, from: nat, end: int) {
    from <= end <= |json| && AllSpace(json[from..end]) && (end < |json| ==> !IsSpace(json[end]))
  }

  /** Behind the name at `p`, a colon at `c` and white space lead to the value at `v`. */
  predicate ValueBehind(json: string, pat: string, p: int, c: int, v: nat) {
    && NamedAt(json, pat, p) && SpaceUpTo(json, p + |pat|, c)
    && c < |json| && json[c] == ':' && SpaceUpTo(json, c + 1, v)
  }

  /** Behind the name at `p`, something other than a colon at `c`. */
  predicate NoColonBehind(json: string, pat: string, p: int, c: int) {
    NamedAt(json, pat, p) && SpaceUpTo(json, p + |pat|, c) && (c < |json| ==> json[c] != ':')
  }

  /** Where the member's value starts, or why there is none. */
  lemma MemberMeans(json: string, pat: string)
    ensures match MemberStart(json, pat)
      case Some(v) => exists p, c :: ValueBehind(json, pat, p, c, v)
      case None => (forall i: nat :: !Occurs(json, pat, i)) || exists p, c :: NoColonBehind(json, pat, p, c)
  {
    if Find(json, pat).Some? {
      var c := ColonAt(json, pat, Find(json, pat).value);
    }
  }

  lemma ColonAt(json: string, pat: string, p: nat) returns (c: int)
    requires Find(json, pat) == Some(p)
    ensures match ValueStart(json, p + |pat|)
      case None => NoColonBehind(json, pat, p, c)
      case Some(v) => ValueBehind(json, pat, p, c, v)
  {
    assert NamedAt(json, pat, p);
    c := ColonFrom(json, p + |pat|);
  }

  lemma ColonFrom(json: string, from: nat) returns (c: int)
    requires from <= |json|
    ensures SpaceUpTo(json, from, c)
    ensures match ValueStart(json, from)
      case None => c < |json| ==> json[c] != ':'
      case Some(v) => c < |json| && json[c] == ':' && SpaceUpTo(json, c + 1, v)
  {
    SpaceIs(json, from);
    c := from + SpaceLen(json[from..]);
    if c < |json| {
      SpaceIs(json, c + 1);
    }
  }

  lemma {:induction false} SpaceIs(json: string, from: nat)
    requires from <= |json|
    ensures SpaceUpTo(json, from, from + SpaceLen(json[from..]))
    decreases |json| - from
  {
    if from < |json| && IsSpace(json[from]) {
      SpaceIs(json, from + 1);
      assert json[from..][1..] == json[from + 1..];
      var end := from + SpaceLen(json[from..]);
      assert json[from..end] == [json[from]] + json[from + 1..end];
    }
  }

  /** How many backslashes stand right before position `k`. */
  function Backslashes(t: string, k: nat): nat
    requires k <= |t|
  {
    if k > 0 && t[k - 1] == '\\' then 1 + Backslashes(t, k - 1) else 0
  }

  /** A quotation mark at `k` that no backslash escapes. */
  predicate EndsString(t: string, k: nat) {
    k < |t| && t[k] == '\"' && Backslashes(t, k) % 2 == 0
  }

  /** The string ends at the first quotation mark behind an even number of backslashes. */
  lemma StringLenMeans(t: string)
    ensures var n := StringLen(t, false);
      (n < |t| ==> EndsString(t, n)) && forall k :: 0 <= k < n ==> !EndsString(t, k)
  {
    assert t[0..] == t && Backslashes(t, 0) == 0;
    EndOfString(t, 0);
  }

  lemma {:induction false} EndOfString(t: string, k: nat)
    requires k <= |t|
    ensures var e := k + StringLen(t[k..], Backslashes(t, k) % 2 == 1);
      && e <= |t| && (e < |t| ==> EndsString(t, e))
      && forall j :: k <= j < e ==> !EndsString(t, j)
    decreases |t| - k
  {
    if k < |t| {
      assert t[k..][1..] == t[k + 1..];
      EndOfString(t, k + 1);
    }
  }

  /** The value at `v` is the string with this text, up to the first quotation mark that ends it. */
  predicate StringUpTo(json: string, v: nat, text: string) {
    v < |json| && json[v] == '\"' && FirstEnd(json[v + 1..], |text|) && json[v + 1..][..|text|] == text
  }

  predicate FirstEnd(t: string, n: nat) {
    EndsString(t, n) && forall k :: 0 <= k < n ==> !EndsString(t, k)
  }

  /** The value at `v` is no string, or one that never ends. */
  predicate NoStringAt(json: string, v: nat) {
    v < |json| && json[v] == '\"' ==> NeverEnds(json[v + 1..])
  }

  predicate NeverEnds(t: string) {
    forall k :: 0 <= k < |t| ==> !EndsString(t, k)
  }

  /**
   The text returned is that of the string behind the first occurrence of the name.
   Nothing is returned if the name does not occur, no colon follows it, or the value
   is no terminated string.
   */
  lemma StringMemberMeans(json: string, key: string)
    requires |key| <= KEY_LIMIT
    ensures var pat := "\"" + key + "\"";
      match ExtractString(json, key)
      case Some(text) => exists p, c, v :: ValueBehind(json, pat, p, c, v) && StringUpTo(json, v, text)
      case None =>
        || (forall i: nat :: !Occurs(json, pat, i))
        || (exists p, c :: NoColonBehind(json, pat, p, c))
        || (exists p, c, v :: ValueBehind(json, pat, p, c, v) && NoStringAt(json, v))
  {
    MemberMeans(json, Pattern(key));
    var v := MemberStart(json, Pattern(key));
    if v.Some? {
      StringAtMeans(json, v.value);
    }
  }

  lemma StringAtMeans(json: string, v: nat)
    requires v <= |json|
    ensures match StringAt(json[v..])
      case Some(text) => StringUpTo(json, v, text)
      case None => NoStringAt(json, v)
  {
    if v < |json| {
      StringLenMeans(json[v + 1..]);
      assert json[v..][1..] == json[v + 1..];
    }
  }

  /** Neither a comma nor a closing brace from `v` to `e`, where one stands or the text ends. */
  predicate ScalarUpTo(json: string, v: nat, e: nat) {
    && v <= e <= |json| && (e < |json| ==> json[e] == ',' || json[e] == '}')
    && forall i :: v <= i < e ==> json[i] != ',' && json[i] != '}'
  }

  /**
   Absent: the name does not occur. Malformed: no colon behind its first occurrence.
   Otherwise the value behind the colon; if it is no object, all of it up to the next
   comma or closing brace.
   */
  lemma ParamsMeans(json: string)
    ensures match ExtractParams(json)
      case Absent => forall i: nat :: !Occurs(json, "\"params\"", i)
      case Malformed => exists p, c :: NoColonBehind(json, "\"params\"", p, c)
      case Text(v, n) =>
        && (exists p, c :: ValueBehind(json, "\"params\"", p, c, v))
        && (v == |json| || json[v] != '{' ==> ScalarUpTo(json, v, v + n))
  {
    MemberMeans(json, PARAMS);
    var v := MemberStart(json, PARAMS);
    if v.Some? && (v.value == |json| || json[v.value] != '{') {
      ScalarValue(json, v.value);
    }
  }

  lemma ScalarValue(json: string, v: nat)
    requires v <= |json| && (v == |json| || json[v] != '{')
    ensures ScalarUpTo(json, v, v + ValueLen(json[v..]))
  {
    ScalarIs(json, v);
  }

  lemma {:induction false} ScalarIs(json: string, v: nat)
    requires v <= |json|
    ensures ScalarUpTo(json, v, v + ScalarLen(json[v..]))
    decreases |json| - v
  {
    if v < |json| && json[v] != ',' && json[v] != '}' {
      ScalarIs(json, v + 1);
      assert json[v..][1..] == json[v + 1..];
    }
  }

  /** A nested object whose strings do not end in an escaped backslash. */
  predicate PlainObject(obj: string) {
    obj != [] && obj[0] == '{' && Closes(obj[1..], 1) && NoFinalBackslash(obj[1..])
  }

  /**
   Where `"params"` first occurs, at `p`, as the name of a member whose value from
   `v` to `e` is an object, exactly that object is extracted, whatever braces and
   quotation marks its strings contain.
   */
  lemma ParamsObjectExact(json: string, p: nat, colon: nat, v: nat, e: nat)
    requires Find(json, PARAMS) == Some(p) && LeadsTo(json, p + |PARAMS|, colon, v)
    requires v <= e <= |json| && PlainObject(json[v..e])
    ensures ExtractParams(json) == Text(v, e - v)
  {
    ValueFound(json, p + |PARAMS|, colon, v);
    assert json[v..] == json[v..e] + json[e..];
    ObjectSpan(json[v..e], json[e..]);
  }

  lemma ObjectSpan(obj: string, rest: string)
    requires PlainObject(obj)
    ensures ValueLen(obj + rest) == |obj|
  {
    assert (obj + rest)[1..] == obj[1..] + rest;
    AgreeIffNoFinalBackslash(obj[1..], 1, rest);
    AgreementGivesSpan(obj[1..], 1, rest);
  }
}

/**
 The growable JSON writer and the cursor loops of the readers
 (src/ipc/tip_json.c), in place, against the functions of JsonText.
 */
module JsonBuilder {
  import opened Common
  import opened JsonText

  lemma Associative(a: string, b: string, c: string, d: string)
    ensures a + (b + c) + d == a + (b + (c + d))
    ensures a + (b + c) + d == a + (b + c + d)
  {
  }

  lemma DropDrop(s: string, a: nat, b: nat)
    requires a + b <= |s|
    ensures s[a..][b..] == s[a + b..]
  {
  }

  class Builder {
    var buf: array<char>
    var len: nat
    var cap: nat

    ghost predicate Valid()
      reads this, buf
    {
      cap == buf.Length && len < cap && buf[len] == '\0'
    }

    /** What has been written so far. */
    ghost function Content(): string
      requires len <= buf.Length
      reads this, buf
    {
      buf[..len]
    }

    constructor ()
      ensures Valid() && Content() == "" && fresh(buf)
    {
      cap := 256;
      len := 0;
      buf := new char[256];
      new;
      buf[0] := '\0';
    }

    /** ensure_cap: room for `need` more characters; growing keeps the content. */
    method EnsureCap(need: nat)
      requires Valid()
      modifies this`buf, this`cap
      ensures Valid() && len == old(len) && Content() == old(Content())
      ensures len + need < cap
      ensures buf == old(buf) || fresh(buf)
    {
      if len + need >= cap {
        var newCap := cap * 2;
        while newCap < len + need + 1
          invariant newCap > 0 && newCap >= cap
          decreases len + need + 1 - newCap
        {
          newCap := newCap * 2;
        }
        var grown := new char[newCap];
        forall i | 0 <= i <= len {
          grown[i] := buf[i];
        }
        assert grown[..len] == buf[..len];
        buf := grown;
        cap := newCap;
      }
    }

    /** tip_json_builder_append_raw */
    method AppendRaw(s: string)
      requires Valid()
      modifies this, buf
      ensures Valid() && Content() == old(Content()) + s
      ensures buf == old(buf) || fresh(buf)
    {
      ghost var before := Content();
      EnsureCap(|s| + 1);
      forall i | 0 <= i < |s| {
        buf[len + i] := s[i];
      }
      buf[len + |s|] := '\0';
      assert buf[..len + |s|] == before + s;
      len := len + |s|;
    }

    /** tip_json_builder_append_string: one escape at a time between two quotation marks. */
    method AppendString(s: string)
      requires Valid()
      modifies this, buf
      ensures Valid() && Content() == old(Content()) + Quoted(s)
      ensures buf == old(buf) || fresh(buf)
    {
      ghost var before := Content();
      AppendRaw("\"");
      for i := 0 to |s|
        invariant Valid() && (buf == old(buf) || fresh(buf))
        invariant Content() == before + ("\"" + Escape(s[..i]))
      {
        ghost var soFar := Escape(s[..i]);
        assert s[..i + 1] == s[..i] + [s[i]];
        EscapeSnoc(s[..i], s[i]);
        AppendRaw(EscapeChar(s[i]));
        Associative(before, "\"", soFar, EscapeChar(s[i]));
      }
      assert s[..|s|] == s;
      AppendRaw("\"");
      Associative(before, "\"", Escape(s), "\"");
    }

    /** tip_json_builder_steal: the finished C string. */
    method Steal() returns (text: string)
      requires Valid()
      ensures text == Content()
    {
      text := buf[..len];
    }
  }

  // ---------------------------------------------------------------- reading loops

  /** skip_ws: the cursor behind white space. */
  method SkipSpace(json: string, from: nat) returns (i: nat)
    requires from <= |json|
    ensures i == from + SpaceLen(json[from..]) <= |json|
  {
    i := from;
    while i < |json| && IsSpace(json[i])
      invariant from <= i <= |json|
      invariant SpaceLen(json[from..]) == i - from + SpaceLen(json[i..])
    {
      assert json[i..][1..] == json[i + 1..];
      i := i + 1;
    }
  }

  /** The value behind a member name that ends at `from`; None when no colon follows. */
  method SkipColon(json: string, from: nat) returns (r: Option<nat>)
    requires from <= |json|
    ensures r == ValueStart(json, from)
  {
    var a := SkipSpace(json, from);
    if a == |json| || json[a] != ':' {
      return None;
    }
    var b := SkipSpace(json, a + 1);
    return Some(b);
  }

  /** The loop of tip_json_extract_string over the characters of the value. */
  method ScanString(json: string, from: nat) returns (len: nat)
    requires from <= |json|
    ensures len == StringLen(json[from..], false)
  {
    var escaped := false;
    len := 0;
    while from + len < |json| && (json[from + len] != '\"' || escaped)
      invariant from + len <= |json|
      invariant StringLen(json[from..], false) == len + StringLen(json[from + len..], escaped)
    {
      assert json[from + len..][1..] == json[from + len + 1..];
      escaped := json[from + len] == '\\' && !escaped;
      len := len + 1;
    }
  }

  /** The raw text of the string value at `v`, if there is one. */
  method ReadStringAt(json: string, v: nat) returns (r: Option<string>)
    requires v <= |json|
    ensures r == StringAt(json[v..])
  {
    if v == |json| || json[v] != '\"' {
      return None;
    }
    var start := v + 1;
    DropDrop(json, v, 1);
    var len := ScanString(json, start);
    if start + len == |json| {
      return None;
    }
    assert json[start..][..len] == json[start..start + len];
    return Some(json[start..start + len]);
  }

  /** tip_json_extract_string */
  method ReadString(json: string, key: string) returns (r: Option<string>)
    ensures r == ExtractString(json, key)
  {
    if |key| > KEY_LIMIT {
      return None;
    }
    var pat := Pattern(key);
    var p := Find(json, pat);
    if p.None? {
      return None;
    }
    var v := SkipColon(json, p.value + |pat|);
    if v.None? {
      return None;
    }
    r := ReadStringAt(json, v.value);
  }

  /** The inner loop of tip_json_extract_params: the cursor behind a string opened just before `from`. */
  method SkipQuoted(json: string, from: nat) returns (i: nat)
    requires 0 < from <= |json| && json[from - 1] == '\"'
    ensures var n := QuickLen(json[from..], '\"');
      i == from + n + (if from + n < |json| then 1 else 0)
  {
    i := from;
    while i < |json| && (json[i] != '\"' || json[i - 1] == '\\')
      invariant from <= i <= |json|
      invariant QuickLen(json[from..], '\"') == i - from + QuickLen(json[i..], json[i - 1])
    {
      assert json[i..][1..] == json[i + 1..];
      i := i + 1;
    }
    if i < |json| {
      i := i + 1;
    }
  }

  /** A string passed as a whole. */
  lemma SpanOverString(json: string, i: nat, j: nat, depth: nat)
    requires i < |json| && json[i] == '\"' && depth > 0
    requires var n := QuickLen(json[i + 1..], '\"'); j == i + 1 + n + (if i + 1 + n < |json| then 1 else 0)
    ensures i < j <= |json| && SpanLen(json[i..], depth) == j - i + SpanLen(json[j..], depth)
  {
    DropDrop(json, i, 1);
    DropDrop(json, i, j - i);
  }

  lemma SpanOverChar(json: string, i: nat, depth: nat)
    requires i < |json| && json[i] != '\"' && depth > 0
    ensures SpanLen(json[i..], depth) == 1 + SpanLen(json[i + 1..], Deeper(depth, json[i]))
  {
    DropDrop(json, i, 1);
  }

  /** One step of the brace loop: a string as a whole, or one character. */
  method ScanNext(json: string, from: nat, depth: nat) returns (i: nat, deeper: nat)
    requires from < |json| && depth > 0
    ensures from < i <= |json|
    ensures SpanLen(json[from..], depth) == i - from + SpanLen(json[i..], deeper)
  {
    if json[from] == '\"' {
      i := SkipQuoted(json, from + 1);
      SpanOverString(json, from, i, depth);
      deeper := depth;
    } else {
      SpanOverChar(json, from, depth);
      i, deeper := from + 1, Deeper(depth, json[from]);
    }
  }

  /** The brace loop of tip_json_extract_params from just behind the opening brace. */
  method ScanObject(json: string, from: nat) returns (i: nat)
    requires from <= |json|
    ensures i == from + SpanLen(json[from..], 1)
  {
    var depth: nat := 1;
    i := from;
    while i < |json| && depth > 0
      invariant from <= i <= |json|
      invariant SpanLen(json[from..], 1) == i - from + SpanLen(json[i..], depth)
      decreases |json| - i
    {
      i, depth := ScanNext(json, i, depth);
    }
  }

  /** The end of the params value at `v`. */
  method ReadValue(json: string, v: nat) returns (len: nat)
    requires v <= |json|
    ensures len == ValueLen(json[v..])
  {
    if v < |json| && json[v] == '{' {
      var end := ScanObject(json, v + 1);
      DropDrop(json, v, 1);
      return end - v;
    }
    var i := v;
    while i < |json| && json[i] != ',' && json[i] != '}'
      invariant v <= i <= |json|
      invariant ScalarLen(json[v..]) == i - v + ScalarLen(json[i..])
    {
      DropDrop(json, i, 1);
      i := i + 1;
    }
    return i - v;
  }

  /** tip_json_extract_params */
  method ReadParams(json: string) returns (r: Params)
    ensures r == ExtractParams(json)
  {
    var p := Find(json, PARAMS);
    if p.None? {
      return Absent;
    }
    var v := SkipColon(json, p.value + |PARAMS|);
    if v.None? {
      return Malformed;
    }
    var len := ReadValue(json, v.value);
    return Text(v.value, len);
  }
}

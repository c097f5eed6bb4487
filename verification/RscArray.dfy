/** Pulling a named JSON array out of a stream of text by matching brackets,
    with strings and escapes respected (grammar: sections 2, 4, 5 and 7 of
    RFC 8259). */
module RscArray {
  import opened FixedWidth
  import opened Text

  // ------------------------------------------------------------ the scanner

  datatype Scan = Scan(depth: int, inString: bool, escaped: bool)

  /** The character closes the outermost bracket. */
  predicate Closes(s: Scan, c: char) {
    !s.escaped && !s.inString && c == ']' && s.depth == 1
  }

  function Feed(s: Scan, c: char): Scan {
    if s.escaped then s.(escaped := false)
    else if c == '\\' then s.(escaped := true)
    else if c == '"' then s.(inString := !s.inString)
    else if s.inString then s
    else if c == '[' then s.(depth := s.depth + 1)
    else if c == ']' then s.(depth := s.depth - 1)
    else s
  }

  /** Where in `text` the scan stops, if it does. */
  function Stop(s: Scan, text: string): (r: Option<nat>)
    ensures r.Some? ==> r.value < |text| && text[r.value] == ']'
    decreases |text|
  {
    if text == "" then None
    else if Closes(s, text[0]) then Some(0)
    else
      var rest := Stop(Feed(s, text[0]), text[1..]);
      if rest.Some? then Some(rest.value + 1) else None
  }

  function Marker(key: string): string { "\"" + key + "\":[" }

  /** The first `[` at or after `i`: where the slice starts. */
  function Start(text: string, i: nat): Option<nat>
    requires i <= |text|
  {
    Find(text, "[", i)
  }

  function Extracted(text: string, key: string): Option<string> {
    var i := Find(text, Marker(key), 0);
    if i.None? then None else
    var start := Start(text, i.value);
    if start.None? then None else
    var end := Stop(Scan(0, false, false), text[start.value..]);
    if end.None? then None else Some(text[start.value..][..end.value + 1])
  }

  function Shifted(r: Option<nat>, n: nat): Option<nat> { if r.Some? then Some(r.value + n) else None }

  /** The same, from index `j` of a longer text, as an index of that text. */
  function StopFrom(s: Scan, text: string, j: nat): Option<nat>
    requires j <= |text|
    decreases |text| - j
  {
    if j == |text| then None
    else if Closes(s, text[j]) then Some(j)
    else StopFrom(Feed(s, text[j]), text, j + 1)
  }

  lemma {:induction false} StopFromIsStop(s: Scan, text: string, j: nat)
    requires j <= |text|
    ensures StopFrom(s, text, j) == Shifted(Stop(s, text[j..]), j)
    decreases |text| - j
  {
    if j < |text| {
      StopFromIsStop(Feed(s, text[j]), text, j + 1);
      assert text[j..][1..] == text[j + 1..];
    }
  }

  /** The flat scan: one pass, three variables. */
  method ScanBrackets(text: string, start: nat) returns (end: Option<nat>)
    requires start <= |text|
    ensures end == Shifted(Stop(Scan(0, false, false), text[start..]), start)
  {
    var depth, inString, escaped := 0, false, false;
    StopFromIsStop(Scan(0, false, false), text, start);
    ghost var stop := StopFrom(Scan(0, false, false), text, start);
    var j := start;
    while j < |text|
      invariant start <= j <= |text|
      invariant stop == StopFrom(Scan(depth, inString, escaped), text, j)
    {
      var c := text[j];
      if escaped {
        escaped := false;
      } else if c == '\\' {
        escaped := true;
      } else if c == '"' {
        inString := !inString;
      } else if inString {
      } else if c == '[' {
        depth := depth + 1;
      } else if c == ']' {
        depth := depth - 1;
        if depth == 0 {
          return Some(j);
        }
      }
      j := j + 1;
    }
    end := None;
  }

  method ExtractArray(text: string, key: string) returns (r: Option<string>)
    ensures r == Extracted(text, key)
  {
    var i := Find(text, Marker(key), 0);
    if i.None? {
      return None;
    }
    var start := Start(text, i.value);
    if start.None? {
      return None;
    }
    var end := ScanBrackets(text, start.value);
    if end.None? {
      return None;
    }
    r := Some(text[start.value..end.value + 1]);
    assert text[start.value..][..end.value + 1 - start.value] == text[start.value..end.value + 1];
  }

  // ------------------------------------------------------------ JSON values

  /** A string is made of plain characters and two-character escapes (`\u0041`
      is the escape `\u` and four plain characters). */
  datatype Item = Plain(c: char) | Escape(c: char)

  /** Values as written, with the white space around every token. */
  datatype Value =
    | Literal(text: string)
    | Str(items: seq<Item>)
    | Arr(ws: string, elems: Elems)
    | Obj(ws: string, members: Members)

  datatype Elems = NoElems | Elem(before: string, value: Value, after: string, rest: Elems)

  datatype Members =
    | NoMembers
    | Member(before: string, key: seq<Item>, gap: string, lead: string, value: Value, after: string, rest: Members)

  predicate IsWhite(s: string) {
    forall i :: 0 <= i < |s| ==> s[i] == ' ' || s[i] == '\t' || s[i] == '\n' || s[i] == '\r'
  }

  /** `true`, `false`, `null` and numbers use these characters only. */
  predicate IsLiteral(s: string) {
    forall i :: 0 <= i < |s| ==>
      'a' <= s[i] <= 'z' || s[i] == 'E' || '0' <= s[i] <= '9' || s[i] == '-' || s[i] == '+' || s[i] == '.'
  }

  predicate AreItems(items: seq<Item>) {
    forall i :: i in items ==> i.Plain? ==> i.c != '"' && i.c != '\\'
  }

  predicate Valid(v: Value) {
    match v
    case Literal(text) => IsLiteral(text)
    case Str(items) => AreItems(items)
    case Arr(ws, elems) => IsWhite(ws) && ValidElems(elems)
    case Obj(ws, members) => IsWhite(ws) && ValidMembers(members)
  }

  predicate ValidElems(es: Elems) {
    es.Elem? ==> IsWhite(es.before) && Valid(es.value) && IsWhite(es.after) && ValidElems(es.rest)
  }

  predicate ValidMembers(ms: Members) {
    ms.Member? ==>
      && IsWhite(ms.before) && AreItems(ms.key) && IsWhite(ms.gap) && IsWhite(ms.lead)
      && Valid(ms.value) && IsWhite(ms.after) && ValidMembers(ms.rest)
  }

  function PrintItems(items: seq<Item>): string {
    if items == [] then ""
    else (if items[0].Plain? then [items[0].c] else ['\\', items[0].c]) + PrintItems(items[1..])
  }

  function PrintStr(items: seq<Item>): string { "\"" + PrintItems(items) + "\"" }

  function Print(v: Value): string {
    match v
    case Literal(text) => text
    case Str(items) => PrintStr(items)
    case Arr(ws, elems) => "[" + ws + PrintElems(elems, "") + "]"
    case Obj(ws, members) => "{" + ws + PrintMembers(members, "") + "}"
  }

  function PrintElems(es: Elems, sep: string): string {
    if es.NoElems? then ""
    else sep + es.before + Print(es.value) + es.after + PrintElems(es.rest, ",")
  }

  function PrintMembers(ms: Members, sep: string): string {
    if ms.NoMembers? then ""
    else sep + ms.before + PrintStr(ms.key) + ms.gap + ":" + ms.lead + Print(ms.value) + ms.after
         + PrintMembers(ms.rest, ",")
  }

  // ------------------------------------------- scanning over printed values

  /** The state after `text`, or None if the scan stops inside it. */
  function Through(s: Scan, text: string): Option<Scan>
    decreases |text|
  {
    if text == "" then Some(s)
    else if Closes(s, text[0]) then None
    else Through(Feed(s, text[0]), text[1..])
  }

  lemma {:induction false} ThroughAppend(s: Scan, a: string, b: string)
    requires Through(s, a).Some?
    ensures Through(s, a + b) == Through(Through(s, a).value, b)
    ensures Stop(s, a + b) == Shifted(Stop(Through(s, a).value, b), |a|)
    decreases |a|
  {
    if a == "" {
      assert a + b == b;
    } else {
      ThroughAppend(Feed(s, a[0]), a[1..], b);
      assert (a + b)[1..] == a[1..] + b;
    }
  }

  /** Outside strings, inside at least one bracket. */
  function At(depth: int): Scan { Scan(depth, false, false) }

  /** `text` leaves the scan where it was, at every depth from 1 up. */
  predicate Neutral(text: string, depth: int) { Through(At(depth), text) == Some(At(depth)) }

  lemma Join(a: string, b: string, depth: int)
    requires Neutral(a, depth) && Neutral(b, depth)
    ensures Neutral(a + b, depth)
  {
    ThroughAppend(At(depth), a, b);
  }

  predicate Quiet(text: string) {
    forall i :: 0 <= i < |text| ==> text[i] != '[' && text[i] != ']' && text[i] != '"' && text[i] != '\\'
  }

  lemma {:induction false} QuietIsNeutral(text: string, depth: int)
    requires Quiet(text)
    ensures Neutral(text, depth)
  {
    if text != "" {
      QuietIsNeutral(text[1..], depth);
    }
  }

  lemma {:induction false} ItemsStayInside(items: seq<Item>, depth: int)
    requires AreItems(items)
    ensures Through(Scan(depth, true, false), PrintItems(items)) == Some(Scan(depth, true, false))
  {
    if items != [] {
      var s := Scan(depth, true, false);
      var head := if items[0].Plain? then [items[0].c] else ['\\', items[0].c];
      assert items[0] in items;
      assert Through(s, head) == Some(s) by {
        if items[0].Escape? {
          assert head[1..] == [items[0].c];
          assert Through(Scan(depth, true, true), [items[0].c]) == Some(s);
        }
      }
      ItemsStayInside(items[1..], depth);
      ThroughAppend(s, head, PrintItems(items[1..]));
    }
  }

  lemma StrIsNeutral(items: seq<Item>, depth: int)
    requires AreItems(items)
    ensures Neutral(PrintStr(items), depth)
  {
    var inside := Scan(depth, true, false);
    ItemsStayInside(items, depth);
    ThroughAppend(inside, PrintItems(items), "\"");
    ThroughAppend(At(depth), "\"", PrintItems(items) + "\"");
    assert PrintStr(items) == "\"" + (PrintItems(items) + "\"");
  }

  /** Whatever brackets, braces, quotes and escapes a value holds, scanning
      over its text from inside a bracket ends where it began. */
  lemma {:induction false} ValueIsNeutral(v: Value, depth: int)
    requires Valid(v) && depth >= 1
    ensures Neutral(Print(v), depth)
    decreases v
  {
    match v
    case Literal(text) => QuietIsNeutral(text, depth);
    case Str(items) => StrIsNeutral(items, depth);
    case Arr(ws, elems) =>
      ArrayBody(v, depth);
      ArrayCloses(v, depth);
    case Obj(ws, members) =>
      MembersAreNeutral(members, "", depth);
      Wrapped(ws, PrintMembers(members, ""), depth);
  }

  lemma ArrayCloses(v: Value, depth: int)
    requires v.Arr? && depth >= 1
    requires Through(At(depth), "[" + v.ws + PrintElems(v.elems, "")) == Some(At(depth + 1))
    ensures Neutral(Print(v), depth)
  {
    ThroughAppend(At(depth), "[" + v.ws + PrintElems(v.elems, ""), "]");
    assert Through(At(depth + 1), "]") == Some(At(depth));
  }

  lemma Wrapped(ws: string, body: string, depth: int)
    requires IsWhite(ws) && Neutral(body, depth)
    ensures Neutral("{" + ws + body + "}", depth)
  {
    QuietIsNeutral("{" + ws, depth);
    QuietIsNeutral("}", depth);
    Join("{" + ws, body, depth);
    Join("{" + ws + body, "}", depth);
  }

  /** All of an array but its last character takes the scan one level down. */
  lemma {:induction false} ArrayBody(v: Value, depth: int)
    requires v.Arr? && Valid(v) && depth >= 0
    ensures Through(At(depth), "[" + v.ws + PrintElems(v.elems, "")) == Some(At(depth + 1))
    decreases v, 0
  {
    var body := v.ws + PrintElems(v.elems, "");
    QuietIsNeutral(v.ws, depth + 1);
    ElemsAreNeutral(v.elems, "", depth + 1);
    Join(v.ws, PrintElems(v.elems, ""), depth + 1);
    ThroughAppend(At(depth), "[", body);
    assert "[" + v.ws + PrintElems(v.elems, "") == "[" + body;
  }

  lemma {:induction false} ElemsAreNeutral(es: Elems, sep: string, depth: int)
    requires ValidElems(es) && depth >= 1 && (sep == "" || sep == ",")
    ensures Neutral(PrintElems(es, sep), depth)
    decreases es
  {
    if es.Elem? {
      QuietIsNeutral(sep + es.before, depth);
      ValueIsNeutral(es.value, depth);
      QuietIsNeutral(es.after, depth);
      ElemsAreNeutral(es.rest, ",", depth);
      Join(sep + es.before, Print(es.value), depth);
      Join(sep + es.before + Print(es.value), es.after, depth);
      Join(sep + es.before + Print(es.value) + es.after, PrintElems(es.rest, ","), depth);
    }
  }

  lemma {:induction false} MembersAreNeutral(ms: Members, sep: string, depth: int)
    requires ValidMembers(ms) && depth >= 1 && (sep == "" || sep == ",")
    ensures Neutral(PrintMembers(ms, sep), depth)
    decreases ms
  {
    if ms.Member? {
      var head := sep + ms.before + PrintStr(ms.key);
      QuietIsNeutral(sep + ms.before, depth);
      StrIsNeutral(ms.key, depth);
      Join(sep + ms.before, PrintStr(ms.key), depth);
      QuietIsNeutral(ms.gap, depth);
      QuietIsNeutral(":", depth);
      QuietIsNeutral(ms.lead, depth);
      ValueIsNeutral(ms.value, depth);
      QuietIsNeutral(ms.after, depth);
      MembersAreNeutral(ms.rest, ",", depth);
      Join(head, ms.gap, depth);
      Join(head + ms.gap, ":", depth);
      Join(head + ms.gap + ":", ms.lead, depth);
      Join(head + ms.gap + ":" + ms.lead, Print(ms.value), depth);
      Join(head + ms.gap + ":" + ms.lead + Print(ms.value), ms.after, depth);
      Join(head + ms.gap + ":" + ms.lead + Print(ms.value) + ms.after, PrintMembers(ms.rest, ","), depth);
    }
  }

  /** Scanning from an array's opening bracket stops exactly at the closing
      bracket of that array, whatever follows it. */
  lemma StopsAtTheClosingBracket(v: Value, suffix: string)
    requires v.Arr? && Valid(v)
    ensures Stop(At(0), Print(v) + suffix) == Some(|Print(v)| - 1)
  {
    var body := "[" + v.ws + PrintElems(v.elems, "");
    ArrayBody(v, 0);
    ThroughAppend(At(0), body, "]" + suffix);
    assert Print(v) + suffix == body + ("]" + suffix);
    assert Stop(At(1), "]" + suffix) == Some(0);
  }

  lemma MarkerChar(text: string, key: string, i: nat, k: nat)
    requires OccursAt(text, Marker(key), i) && k < |key| + 4
    ensures text[i + k] == Marker(key)[k]
    ensures OccursAt(text, "[", i + k) <==> Marker(key)[k] == '['
  {
    assert text[i..i + |Marker(key)|][k] == text[i + k];
    assert text[i + k..i + k + 1] == [text[i + k]];
  }

  /** The slice starts at the marker's own bracket exactly when the key itself
      holds no `[`. */
  lemma StartIsTheArrayIff(text: string, key: string, i: nat)
    requires OccursAt(text, Marker(key), i)
    ensures Start(text, i) == Some(i + |key| + 3) <==> '[' !in key
  {
    MarkerChar(text, key, i, |key| + 3);
    if '[' in key {
      var k :| 0 <= k < |key| && key[k] == '[';
      MarkerChar(text, key, i, k + 1);
    } else {
      forall n | i <= n < i + |key| + 3 ensures !OccursAt(text, "[", n) {
        MarkerChar(text, key, i, n - i);
      }
    }
  }

  /** The slice taken, once the search and the start are known. */
  lemma ExtractedAt(text: string, key: string, i: nat, start: nat, v: Value, suffix: string)
    requires v.Arr? && Valid(v) && start <= |text| && text[start..] == Print(v) + suffix
    requires Find(text, Marker(key), 0) == Some(i) && Start(text, i) == Some(start)
    ensures Extracted(text, key) == Some(Print(v))
  {
    StopsAtTheClosingBracket(v, suffix);
    assert (Print(v) + suffix)[..|Print(v)|] == Print(v);
  }

  /** For every array written after the first occurrence of the key marker,
      and any text around it, the slice taken is that array's text. */
  lemma ExtractsThePrintedArray(before: string, key: string, v: Value, suffix: string)
    requires v.Arr? && Valid(v) && '[' !in key
    requires Find(before + "\"" + key + "\":" + Print(v) + suffix, Marker(key), 0) == Some(|before|)
    ensures Extracted(before + "\"" + key + "\":" + Print(v) + suffix, key) == Some(Print(v))
  {
    var head := before + "\"" + key + "\":";
    var text := head + Print(v) + suffix;
    StartIsTheArrayIff(text, key, |before|);
    assert text == head + (Print(v) + suffix);
    ExtractedAt(text, key, |before|, |head|, v, suffix);
  }

  /** With a bracket in the key the scan starts inside the key, and the array
      is missed. */
  lemma BracketInKeyMissesTheArray()
    ensures Extracted("\"a[\":[]", "a[") == None
  {
    var text := "\"a[\":[]";
    assert OccursAt(text, Marker("a["), 0);
    assert Find(text, Marker("a["), 0) == Some(0);
    assert text[0..1] != "[" && text[1..2] != "[" && text[2..3] == "[";
    assert OccursAt(text, "[", 2) && !OccursAt(text, "[", 1) && !OccursAt(text, "[", 0);
    assert Find(text, "[", 2) == Some(2) && Find(text, "[", 1) == Some(2);
    assert text[2..] == "[\":[]";
    var s := Scan(1, true, false);
    assert Stop(s, "]") == None by { assert "]"[1..] == ""; }
    assert Stop(s, "[]") == None by { assert "[]"[1..] == "]"; }
    assert Stop(s, ":[]") == None by { assert ":[]"[1..] == "[]"; }
    assert Stop(Scan(1, false, false), "\":[]") == None by { assert "\":[]"[1..] == ":[]"; }
    assert "[\":[]"[1..] == "\":[]";
  }
}

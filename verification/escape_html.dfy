/** `escapeHtml` of routes/index.js: five global `String.prototype.replace` calls, `&` first.
    The chain is proved equal to a per-character map, which gives the escaping facts and a
    decoder that inverts it. */
module EscapeHtml {

  /** `d` does not occur in `s`. */
  predicate Lacks(s: string, d: char) {
    forall i :: 0 <= i < |s| ==> s[i] != d
  }

  /** `s.replace(/c/g, rep)` for a one-character pattern and a replacement without `$`: no `c`
      survives unless `rep` brings one, and no other character appears that neither `s` nor
      `rep` holds. */
  function ReplaceAll(s: string, c: char, rep: string): (r: string)
    ensures Lacks(rep, c) ==> Lacks(r, c)
    ensures forall d :: Lacks(s, d) && Lacks(rep, d) ==> Lacks(r, d)
  {
    if s == [] then []
    else
      var head := if s[0] == c then rep else [s[0]];
      var tail := ReplaceAll(s[1..], c, rep);
      assert forall d :: Lacks(s, d) ==> Lacks(s[1..], d);
      assert forall i :: 0 <= i < |head + tail| ==> (head + tail)[i] == (if i < |head| then head[i] else tail[i - |head|]);
      head + tail
  }

  /** The four markup entities hold no markup character. */
  lemma EntitiesLackMarkup(lt: string, gt: string, quot: string, apos: string)
    requires lt == "&lt;" && gt == "&gt;" && quot == "&quot;" && apos == "&#039;"
    ensures forall d :: IsMarkup(d) ==> Lacks(lt, d) && Lacks(gt, d) && Lacks(quot, d) && Lacks(apos, d)
  {
  }

  /** `escapeHtml(text)` as written: the five replacements applied in source order. The output
      holds no `<`, `>`, `"` or `'`. */
  function EscapeHtml(text: string): (r: string)
    ensures forall i :: 0 <= i < |r| ==> !IsMarkup(r[i])
  {
    var amp := ReplaceAll(text, '&', "&amp;");
    var lt := ReplaceAll(amp, '<', "&lt;");
    var gt := ReplaceAll(lt, '>', "&gt;");
    var quot := ReplaceAll(gt, '"', "&quot;");
    var apos := ReplaceAll(quot, '\'', "&#039;");
    EntitiesLackMarkup("&lt;", "&gt;", "&quot;", "&#039;");
    assert Lacks(apos, '<') && Lacks(apos, '>') && Lacks(apos, '"') && Lacks(apos, '\'');
    apos
  }

  /** The four characters that would open or close markup or an attribute value. */
  predicate IsMarkup(c: char) {
    c == '<' || c == '>' || c == '"' || c == '\''
  }

  /** The five characters `escapeHtml` replaces. */
  predicate IsSpecial(c: char) {
    c == '&' || IsMarkup(c)
  }

  /** The entity each character stands for in the output. */
  function Entity(c: char): (e: string)
    ensures |e| >= 1 && e[0] == (if IsMarkup(c) then '&' else c)
  {
    match c
    case '&' => "&amp;"
    case '<' => "&lt;"
    case '>' => "&gt;"
    case '"' => "&quot;"
    case '\'' => "&#039;"
    case _ => [c]
  }

  /** Escaping one character at a time: the reference the chain is compared with. */
  function EscapeEach(s: string): string
  {
    if s == [] then [] else Entity(s[0]) + EscapeEach(s[1..])
  }

  lemma {:induction false} ReplaceAllAppend(a: string, b: string, c: char, rep: string)
    ensures ReplaceAll(a + b, c, rep) == ReplaceAll(a, c, rep) + ReplaceAll(b, c, rep)
    decreases |a|
  {
    if a == [] {
      assert a + b == b;
    } else {
      assert (a + b)[0] == a[0] && (a + b)[1..] == a[1..] + b;
      ReplaceAllAppend(a[1..], b, c, rep);
    }
  }

  lemma ReplaceAllSingle(x: char, c: char, rep: string)
    ensures ReplaceAll([x], c, rep) == if x == c then rep else [x]
  {
    assert [x][1..] == [];
  }

  lemma {:induction false} ReplaceAllAbsent(s: string, c: char, rep: string)
    requires forall i :: 0 <= i < |s| ==> s[i] != c
    ensures ReplaceAll(s, c, rep) == s
    decreases |s|
  {
    if s != [] {
      ReplaceAllAbsent(s[1..], c, rep);
    }
  }

  /** The chain on a single character yields that character's entity: every entity introduced
      by one replacement is free of the characters the later replacements look for. */
  lemma EscapeHtmlChar(x: char)
    ensures EscapeHtml([x]) == Entity(x)
  {
    if x == '&' { EscapeAmp(x, Entity(x)); }
    else if x == '<' { EscapeLt(x, Entity(x)); }
    else if x == '>' { EscapeGt(x, Entity(x)); }
    else if x == '"' { EscapeQuot(x, Entity(x)); }
    else if x == '\'' { EscapeApos(x, Entity(x)); }
    else {
      ReplaceAllSingle(x, '&', "&amp;");
      ReplaceAllSingle(x, '<', "&lt;");
      ReplaceAllSingle(x, '>', "&gt;");
      ReplaceAllSingle(x, '"', "&quot;");
      ReplaceAllSingle(x, '\'', "&#039;");
    }
  }

  /** The last four replacements leave a string without markup characters as it is. */
  lemma MarkupFreeFixed(s: string)
    requires forall i :: 0 <= i < |s| ==> !IsMarkup(s[i])
    ensures ReplaceAll(s, '<', "&lt;") == s && ReplaceAll(s, '>', "&gt;") == s
    ensures ReplaceAll(s, '"', "&quot;") == s && ReplaceAll(s, '\'', "&#039;") == s
  {
    ReplaceAllAbsent(s, '<', "&lt;");
    ReplaceAllAbsent(s, '>', "&gt;");
    ReplaceAllAbsent(s, '"', "&quot;");
    ReplaceAllAbsent(s, '\'', "&#039;");
  }

  lemma EscapeAmp(x: char, e: string)
    requires x == '&' && e == "&amp;"
    ensures EscapeHtml([x]) == e
  {
    ReplaceAllSingle(x, '&', "&amp;");
    assert e[0] == '&' && e[1] == 'a' && e[2] == 'm' && e[3] == 'p' && e[4] == ';' && |e| == 5;
    MarkupFreeFixed(e);
  }

  lemma EscapeLt(x: char, e: string)
    requires x == '<' && e == "&lt;"
    ensures EscapeHtml([x]) == e
  {
    ReplaceAllSingle(x, '&', "&amp;");
    ReplaceAllSingle(x, '<', "&lt;");
    assert e[0] == '&' && e[1] == 'l' && e[2] == 't' && e[3] == ';' && |e| == 4;
    MarkupFreeFixed(e);
  }

  lemma EscapeGt(x: char, e: string)
    requires x == '>' && e == "&gt;"
    ensures EscapeHtml([x]) == e
  {
    ReplaceAllSingle(x, '&', "&amp;");
    ReplaceAllSingle(x, '<', "&lt;");
    ReplaceAllSingle(x, '>', "&gt;");
    assert e[0] == '&' && e[1] == 'g' && e[2] == 't' && e[3] == ';' && |e| == 4;
    MarkupFreeFixed(e);
  }

  lemma EscapeQuot(x: char, e: string)
    requires x == '"' && e == "&quot;"
    ensures EscapeHtml([x]) == e
  {
    ReplaceAllSingle(x, '&', "&amp;");
    ReplaceAllSingle(x, '<', "&lt;");
    ReplaceAllSingle(x, '>', "&gt;");
    ReplaceAllSingle(x, '"', "&quot;");
    assert e[0] == '&' && e[1] == 'q' && e[2] == 'u' && e[3] == 'o' && e[4] == 't' && e[5] == ';' && |e| == 6;
    MarkupFreeFixed(e);
  }

  lemma EscapeApos(x: char, e: string)
    requires x == '\'' && e == "&#039;"
    ensures EscapeHtml([x]) == e
  {
    ReplaceAllSingle(x, '&', "&amp;");
    ReplaceAllSingle(x, '<', "&lt;");
    ReplaceAllSingle(x, '>', "&gt;");
    ReplaceAllSingle(x, '"', "&quot;");
    ReplaceAllSingle(x, '\'', "&#039;");
  }

  /** The chain distributes over concatenation, since each replacement does. */
  lemma EscapeHtmlAppend(a: string, b: string)
    ensures EscapeHtml(a + b) == EscapeHtml(a) + EscapeHtml(b)
  {
    ReplaceAllAppend(a, b, '&', "&amp;");
    var a1, b1 := ReplaceAll(a, '&', "&amp;"), ReplaceAll(b, '&', "&amp;");
    ReplaceAllAppend(a1, b1, '<', "&lt;");
    var a2, b2 := ReplaceAll(a1, '<', "&lt;"), ReplaceAll(b1, '<', "&lt;");
    ReplaceAllAppend(a2, b2, '>', "&gt;");
    var a3, b3 := ReplaceAll(a2, '>', "&gt;"), ReplaceAll(b2, '>', "&gt;");
    ReplaceAllAppend(a3, b3, '"', "&quot;");
    var a4, b4 := ReplaceAll(a3, '"', "&quot;"), ReplaceAll(b3, '"', "&quot;");
    ReplaceAllAppend(a4, b4, '\'', "&#039;");
  }

  /** The five chained replacements equal the per-character map: because `&` goes first, no
      entity is escaped a second time. */
  lemma {:induction false} EscapeHtmlIsPerChar(s: string)
    ensures EscapeHtml(s) == EscapeEach(s)
    decreases |s|
  {
    if s == [] {
    } else {
      assert s == [s[0]] + s[1..];
      EscapeHtmlAppend([s[0]], s[1..]);
      EscapeHtmlChar(s[0]);
      EscapeHtmlIsPerChar(s[1..]);
    }
  }

  lemma {:induction false} EscapeEachIdentity(s: string)
    requires forall i :: 0 <= i < |s| ==> !IsSpecial(s[i])
    ensures EscapeEach(s) == s
    decreases |s|
  {
    if s != [] {
      EscapeEachIdentity(s[1..]);
    }
  }

  /** A string holding none of the five characters is returned unchanged. */
  lemma PlainTextUnchanged(s: string)
    requires forall i :: 0 <= i < |s| ==> !IsSpecial(s[i])
    ensures EscapeHtml(s) == s
  {
    EscapeHtmlIsPerChar(s);
    EscapeEachIdentity(s);
  }

  lemma {:induction false} EscapeEachLength(s: string)
    ensures |EscapeEach(s)| >= |s|
    ensures |EscapeEach(s)| == |s| <==> forall i :: 0 <= i < |s| ==> !IsSpecial(s[i])
    decreases |s|
  {
    if s != [] {
      EscapeEachLength(s[1..]);
      if forall i :: 0 <= i < |s| ==> !IsSpecial(s[i]) {
        assert forall i :: 0 <= i < |s[1..]| ==> s[1..][i] == s[i + 1];
      } else if !IsSpecial(s[0]) {
        var i :| 0 <= i < |s| && IsSpecial(s[i]);
        assert s[1..][i - 1] == s[i];
      }
    }
  }

  /** Escaping never shortens, and lengthens exactly the strings holding one of the five. */
  lemma OutputNotShorter(s: string)
    ensures |EscapeHtml(s)| >= |s|
    ensures |EscapeHtml(s)| == |s| <==> forall i :: 0 <= i < |s| ==> !IsSpecial(s[i])
  {
    EscapeHtmlIsPerChar(s);
    EscapeEachLength(s);
  }

  /** Escaping `&amp;` escapes its `&` again and keeps the rest. */
  lemma EntityEscapedAgain(once: string)
    requires once == "&amp;"
    ensures EscapeHtml(once) == once + once[1..]
  {
    var tail := once[1..];
    assert tail[0] == 'a' && tail[1] == 'm' && tail[2] == 'p' && tail[3] == ';' && |tail| == 4;
    PlainTextUnchanged(tail);
    assert once == [once[0]] + tail;
    EscapeAmp(once[0], once);
    EscapeHtmlAppend([once[0]], tail);
  }

  /** Escaping is not idempotent: the `&` of an entity is escaped again. */
  lemma NotIdempotent(s: string, once: string, twice: string)
    requires s == "&" && once == "&amp;" && twice == "&amp;amp;"
    ensures EscapeHtml(s) == once
    ensures EscapeHtml(once) == twice
  {
    assert s == [s[0]];
    EscapeAmp(s[0], once);
    EntityEscapedAgain(once);
    var both := once + once[1..];
    assert |both| == 9 == |twice|;
    assert both[..5] == once && both[5..] == once[1..];
    assert twice[..5] == once && twice[5..] == once[1..];
    assert twice == twice[..5] + twice[5..];
    assert both == both[..5] + both[5..];
  }

  /** Replacing `&` in an entity escapes the entity's own `&`. */
  lemma AmpInsideEntity(head: char, tail: string)
    requires head == '&' && forall i :: 0 <= i < |tail| ==> tail[i] != '&'
    ensures ReplaceAll([head] + tail, '&', "&amp;") == "&amp;" + tail
  {
    ReplaceAllAppend([head], tail, '&', "&amp;");
    ReplaceAllSingle(head, '&', "&amp;");
    ReplaceAllAbsent(tail, '&', "&amp;");
  }

  /** Had `&` been replaced last, the entities of the earlier steps would be escaped again. */
  lemma AmpersandMustGoFirst(s: string, lt: string, both: string)
    requires s == "<" && lt == "&lt;" && both == "&amp;lt;"
    ensures EscapeHtml(s) == lt
    ensures ReplaceAll(ReplaceAll(s, '<', lt), '&', "&amp;") == both
  {
    assert s == [s[0]];
    EscapeLt(s[0], lt);
    ReplaceAllSingle(s[0], '<', lt);
    assert lt[0] == '&' && lt[1] == 'l' && lt[2] == 't' && lt[3] == ';' && |lt| == 4;
    assert lt == [lt[0]] + lt[1..];
    AmpInsideEntity(lt[0], lt[1..]);
    var amp := "&amp;";
    assert |amp + lt[1..]| == 8 == |both|;
    assert both[..5] == amp && both[5..] == lt[1..];
    assert both == both[..5] + both[5..];
  }

  /** Decoding of the five entities; every other character stands for itself. */
  function Unescape(s: string): string
    decreases |s|
  {
    if s == [] then []
    else if |s| >= 5 && s[..5] == "&amp;" then "&" + Unescape(s[5..])
    else if |s| >= 4 && s[..4] == "&lt;" then "<" + Unescape(s[4..])
    else if |s| >= 4 && s[..4] == "&gt;" then ">" + Unescape(s[4..])
    else if |s| >= 6 && s[..6] == "&quot;" then "\"" + Unescape(s[6..])
    else if |s| >= 6 && s[..6] == "&#039;" then "'" + Unescape(s[6..])
    else [s[0]] + Unescape(s[1..])
  }

  lemma UnescapePlain(c: char, rest: string)
    requires !IsSpecial(c)
    ensures Unescape([c] + rest) == [c] + Unescape(rest)
  {
    var s := [c] + rest;
    assert s[0] == c && s[1..] == rest;
    assert |s| >= 4 ==> s[..4][0] == c;
    assert |s| >= 5 ==> s[..5][0] == c;
    assert |s| >= 6 ==> s[..6][0] == c;
  }

  lemma UnescapeAmp(e: string, rest: string)
    requires e == "&amp;"
    ensures Unescape(e + rest) == "&" + Unescape(rest)
  {
    var s := e + rest;
    assert s[..5] == e && s[5..] == rest;
  }

  lemma UnescapeLt(e: string, rest: string)
    requires e == "&lt;"
    ensures Unescape(e + rest) == "<" + Unescape(rest)
  {
    var s := e + rest;
    assert s[..4] == e && s[4..] == rest;
    assert |s| >= 5 ==> s[..5][1] == 'l';
  }

  lemma UnescapeGt(e: string, rest: string)
    requires e == "&gt;"
    ensures Unescape(e + rest) == ">" + Unescape(rest)
  {
    var s := e + rest;
    assert s[..4] == e && s[4..] == rest;
    assert |s| >= 5 ==> s[..5][1] == 'g';
    assert s[..4][1] == 'g';
  }

  lemma UnescapeQuot(e: string, rest: string)
    requires e == "&quot;"
    ensures Unescape(e + rest) == "\"" + Unescape(rest)
  {
    var s := e + rest;
    assert s[..6] == e && s[6..] == rest;
    assert s[..5][1] == 'q' && s[..4][1] == 'q';
  }

  lemma UnescapeApos(e: string, rest: string)
    requires e == "&#039;"
    ensures Unescape(e + rest) == "'" + Unescape(rest)
  {
    var s := e + rest;
    assert s[..6] == e && s[6..] == rest;
    assert s[..5][1] == '#' && s[..4][1] == '#' && s[..6][1] == '#';
  }

  /** Decoding an entity gives back the character it stands for. */
  lemma UnescapeEntity(c: char, rest: string)
    ensures Unescape(Entity(c) + rest) == [c] + Unescape(rest)
  {
    if c == '&' { UnescapeAmp(Entity(c), rest); }
    else if c == '<' { UnescapeLt(Entity(c), rest); }
    else if c == '>' { UnescapeGt(Entity(c), rest); }
    else if c == '"' { UnescapeQuot(Entity(c), rest); }
    else if c == '\'' { UnescapeApos(Entity(c), rest); }
    else { UnescapePlain(c, rest); }
  }

  /** Escaping loses nothing: decoding the output gives the input back. */
  lemma {:induction false} UnescapeEscapeHtml(s: string)
    ensures Unescape(EscapeHtml(s)) == s
    decreases |s|
  {
    EscapeHtmlIsPerChar(s);
    if s != [] {
      UnescapeEntity(s[0], EscapeEach(s[1..]));
      UnescapeEscapeHtml(s[1..]);
      EscapeHtmlIsPerChar(s[1..]);
    }
  }
}

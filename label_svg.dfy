/** The text side of `buildSvg` in app/api/render/route.ts: XML escaping
    of caption values, the seven caption templates, and the document that
    is handed to the rasteriser. The pixel geometry of the layout is not
    part of this model. */
module LabelSvg {
  import opened Text

  /** `escapeXml`: five global replacements, `&` first. */
  function EscapeXml(text: string): string
  {
    var amp := ReplaceAll(text, '&', "&amp;");
    var lt := ReplaceAll(amp, '<', "&lt;");
    var gt := ReplaceAll(lt, '>', "&gt;");
    var quot := ReplaceAll(gt, '"', "&quot;");
    ReplaceAll(quot, '\'', "&apos;")
  }

  /** The five characters `escapeXml` replaces. */
  predicate IsSpecial(c: char)
  {
    c == '&' || c == '<' || c == '>' || c == '"' || c == '\''
  }

  /** The characters that may not appear raw in escaped text. */
  predicate IsMarkup(c: char)
  {
    c == '<' || c == '>' || c == '"' || c == '\''
  }

  /** The escaped form of one character, as a reference definition. */
  function EntityOf(c: char): string
  {
    if c == '&' then "&amp;"
    else if c == '<' then "&lt;"
    else if c == '>' then "&gt;"
    else if c == '"' then "&quot;"
    else if c == '\'' then "&apos;"
    else [c]
  }

  /** Escaping character by character. */
  function EscapeEach(s: string): string
  {
    if s == [] then [] else EntityOf(s[0]) + EscapeEach(s[1..])
  }

  /** `t` begins with one of the five entities. */
  predicate StartsEntity(t: string)
  {
    || (|t| >= 5 && t[..5] == "&amp;")
    || (|t| >= 4 && t[..4] == "&lt;")
    || (|t| >= 4 && t[..4] == "&gt;")
    || (|t| >= 6 && t[..6] == "&quot;")
    || (|t| >= 6 && t[..6] == "&apos;")
  }

  /** Decoding of the five entities; every other character stands for itself. */
  function Unescape(s: string): string
    decreases |s|
  {
    if s == [] then []
    else if s[0] != '&' then [s[0]] + Unescape(s[1..])
    else if |s| >= 5 && s[..5] == "&amp;" then "&" + Unescape(s[5..])
    else if |s| >= 4 && s[..4] == "&lt;" then "<" + Unescape(s[4..])
    else if |s| >= 4 && s[..4] == "&gt;" then ">" + Unescape(s[4..])
    else if |s| >= 6 && s[..6] == "&quot;" then "\"" + Unescape(s[6..])
    else if |s| >= 6 && s[..6] == "&apos;" then "'" + Unescape(s[6..])
    else [s[0]] + Unescape(s[1..])
  }

  /** One replacement pass over a per-character escape whose output for
      that character is already final. */
  lemma {:induction false} PassOverEach(s: string, c: char, rep: string, before: char -> string, after: char -> string)
    requires forall x :: c !in before(x) || (x == c && before(x) == [c])
    requires forall x :: after(x) == (if before(x) == [c] then rep else before(x))
    ensures ReplaceAll(MapConcat(s, before), c, rep) == MapConcat(s, after)
  {
    if s != [] {
      ReplaceAllAppend(before(s[0]), MapConcat(s[1..], before), c, rep);
      PassOverEach(s[1..], c, rep, before, after);
    }
  }

  /** The concatenation of `f` applied to each character of `s`. */
  function MapConcat(s: string, f: char -> string): string
  {
    if s == [] then [] else f(s[0]) + MapConcat(s[1..], f)
  }

  function Stage0(c: char): string { [c] }
  function Stage1(c: char): string { if c == '&' then "&amp;" else [c] }
  function Stage2(c: char): string { if c == '<' then "&lt;" else Stage1(c) }
  function Stage3(c: char): string { if c == '>' then "&gt;" else Stage2(c) }
  function Stage4(c: char): string { if c == '"' then "&quot;" else Stage3(c) }

  lemma {:induction false} MapConcatStage0(s: string)
    ensures MapConcat(s, Stage0) == s
  {
    if s != [] {
      MapConcatStage0(s[1..]);
    }
  }

  lemma {:induction false} MapConcatEntity(s: string)
    ensures MapConcat(s, EntityOf) == EscapeEach(s)
  {
    if s != [] {
      MapConcatEntity(s[1..]);
    }
  }

  lemma Pass1Final()
    ensures forall x :: '&' !in Stage0(x) || (x == '&' && Stage0(x) == "&")
    ensures forall x :: Stage1(x) == (if Stage0(x) == "&" then "&amp;" else Stage0(x))
  {
  }

  lemma Pass2Final()
    ensures forall x :: '<' !in Stage1(x) || (x == '<' && Stage1(x) == "<")
    ensures forall x :: Stage2(x) == (if Stage1(x) == "<" then "&lt;" else Stage1(x))
  {
  }

  lemma Pass3Final()
    ensures forall x :: '>' !in Stage2(x) || (x == '>' && Stage2(x) == ">")
    ensures forall x :: Stage3(x) == (if Stage2(x) == ">" then "&gt;" else Stage2(x))
  {
  }

  lemma Pass4Final()
    ensures forall x :: '"' !in Stage3(x) || (x == '"' && Stage3(x) == "\"")
    ensures forall x :: Stage4(x) == (if Stage3(x) == "\"" then "&quot;" else Stage3(x))
  {
  }

  lemma Pass5Final()
    ensures forall x :: '\'' !in Stage4(x) || (x == '\'' && Stage4(x) == "'")
    ensures forall x :: EntityOf(x) == (if Stage4(x) == "'" then "&apos;" else Stage4(x))
  {
  }

  /** The five sequential passes equal the per-character escape: no pass
      touches what an earlier pass wrote, because `&` goes first. */
  lemma EscapeXmlIsPerCharacter(s: string)
    ensures EscapeXml(s) == EscapeEach(s)
  {
    MapConcatStage0(s);
    Pass1Final();
    PassOverEach(s, '&', "&amp;", Stage0, Stage1);
    Pass2Final();
    PassOverEach(s, '<', "&lt;", Stage1, Stage2);
    Pass3Final();
    PassOverEach(s, '>', "&gt;", Stage2, Stage3);
    Pass4Final();
    PassOverEach(s, '"', "&quot;", Stage3, Stage4);
    Pass5Final();
    PassOverEach(s, '\'', "&apos;", Stage4, EntityOf);
    MapConcatEntity(s);
  }

  /** Escaped text holds no raw `<`, `>`, `"` or `'`, and each of its `&`
      opens one of the five entities. */
  lemma {:induction false} EscapeEachIsClean(s: string)
    ensures forall k :: 0 <= k < |EscapeEach(s)| ==> !IsMarkup(EscapeEach(s)[k])
    ensures forall k :: 0 <= k < |EscapeEach(s)| && EscapeEach(s)[k] == '&' ==> StartsEntity(EscapeEach(s)[k..])
  {
    if s != [] {
      EscapeEachIsClean(s[1..]);
      var e, rest := EntityOf(s[0]), EscapeEach(s[1..]);
      assert EscapeEach(s) == e + rest;
      forall k | 0 <= k < |e + rest|
        ensures !IsMarkup((e + rest)[k])
        ensures (e + rest)[k] == '&' ==> StartsEntity((e + rest)[k..])
      {
        if k >= |e| {
          assert (e + rest)[k] == rest[k - |e|];
          assert (e + rest)[k..] == rest[k - |e|..];
        } else if (e + rest)[k] == '&' {
          assert k == 0;
          assert (e + rest)[..|e|] == e;
        }
      }
    }
  }

  /** `escapeXml` output holds no raw markup character, and every `&` in
      it starts an entity. */
  lemma EscapeXmlIsClean(s: string)
    ensures forall k :: 0 <= k < |EscapeXml(s)| ==> !IsMarkup(EscapeXml(s)[k])
    ensures forall k :: 0 <= k < |EscapeXml(s)| && EscapeXml(s)[k] == '&' ==> StartsEntity(EscapeXml(s)[k..])
  {
    EscapeXmlIsPerCharacter(s);
    EscapeEachIsClean(s);
  }

  /** Text without any of the five characters is returned unchanged. */
  lemma EscapeXmlIdentity(s: string)
    requires forall k :: 0 <= k < |s| ==> !IsSpecial(s[k])
    ensures EscapeXml(s) == s
  {
  }

  lemma UnescapeAmp(rest: string)
    ensures Unescape("&amp;" + rest) == "&" + Unescape(rest)
  {
    var t := "&amp;" + rest;
    assert t[..5] == "&amp;" && t[5..] == rest;
  }

  /** The two four-character entities, `&lt;` and `&gt;`. */
  lemma UnescapeAngle(c: char, rest: string)
    requires c == '<' || c == '>'
    ensures Unescape(EntityOf(c) + rest) == [c] + Unescape(rest)
  {
    var t := EntityOf(c) + rest;
    assert t[1] == (if c == '<' then 'l' else 'g') && t[..4] == EntityOf(c) && t[4..] == rest;
  }

  lemma UnescapeQuot(rest: string)
    ensures Unescape("&quot;" + rest) == "\"" + Unescape(rest)
  {
    var t := "&quot;" + rest;
    assert t[1] == 'q' && t[..6] == "&quot;" && t[6..] == rest;
  }

  lemma UnescapeApos(rest: string)
    ensures Unescape("&apos;" + rest) == "'" + Unescape(rest)
  {
    var t := "&apos;" + rest;
    assert t[1] == 'a' && t[2] == 'p' && t[..6] == "&apos;" && t[6..] == rest;
  }

  lemma UnescapePlain(c: char, rest: string)
    requires !IsSpecial(c)
    ensures Unescape([c] + rest) == [c] + Unescape(rest)
  {
    var t := [c] + rest;
    assert t[0] == c && t[1..] == rest;
  }

  /** Decoding an escaped character and what follows it. */
  lemma UnescapeEntity(c: char, rest: string)
    ensures Unescape(EntityOf(c) + rest) == [c] + Unescape(rest)
  {
    if c == '&' {
      UnescapeAmp(rest);
    } else if c == '<' || c == '>' {
      UnescapeAngle(c, rest);
    } else if c == '"' {
      UnescapeQuot(rest);
    } else if c == '\'' {
      UnescapeApos(rest);
    } else {
      UnescapePlain(c, rest);
    }
  }

  /** Decoding the five entities recovers the escaped text. */
  lemma {:induction false} UnescapeEscapeEach(s: string)
    ensures Unescape(EscapeEach(s)) == s
  {
    if s != [] {
      UnescapeEscapeEach(s[1..]);
      UnescapeEntity(s[0], EscapeEach(s[1..]));
    }
  }

  /** `escapeXml` is undone by decoding the five entities. */
  lemma EscapeXmlRoundTrip(s: string)
    ensures Unescape(EscapeXml(s)) == s
  {
    EscapeXmlIsPerCharacter(s);
    UnescapeEscapeEach(s);
  }

  /** The seven caption lines of the label. */
  datatype Captions = Captions(
    box: string, pn: string, vd: string, qty: string,
    mpn: string, maker: string, coo: string)

  /** The box caption: "BB" of the encoded box code shortened to "B", and
      the value interpolated without escaping. */
  function BoxCaption(boxCode: string): string
  {
    "[B]BOX ID:" + ReplaceFirst(boxCode, "BB", "B")
  }

  /** The caption templates of `buildSvg`, each value but the box code escaped. */
  function MakeCaptions(boxCode: string, pnRaw: string, qtyRaw: string, mpnRaw: string,
                        makerName: string, cooText: string, vdText: string): Captions
  {
    Captions(
      BoxCaption(boxCode),
      "[P]P/N:" + EscapeXml(pnRaw),
      "VD:" + EscapeXml(vdText),
      "[Q]QTY:" + EscapeXml(qtyRaw),
      "[1P]MPN(QVL):" + EscapeXml(mpnRaw),
      "MAKER NAME: " + EscapeXml(makerName),
      "(4L)CoO: " + EscapeXml(cooText))
  }

  /** Text fit to stand between tags: no raw markup character, and every
      `&` starts one of the five entities. */
  predicate IsEscaped(t: string)
  {
    && (forall k :: 0 <= k < |t| ==> !IsMarkup(t[k]))
    && (forall k :: 0 <= k < |t| && t[k] == '&' ==> StartsEntity(t[k..]))
  }

  /** An escaped value is fit to stand between tags and decodes back. */
  lemma EscapedValue(x: string)
    ensures IsEscaped(EscapeXml(x)) && Unescape(EscapeXml(x)) == x
  {
    EscapeXmlIsClean(x);
    EscapeXmlRoundTrip(x);
  }

  /** Each escaped caption is its fixed label followed by text that decodes
      to the value and holds no raw markup; the box caption shows "B" and
      the raw box id. */
  lemma CaptionsCarryValues(box: string, pnRaw: string, qtyRaw: string, mpnRaw: string,
                            makerName: string, cooText: string, vdText: string)
    ensures var c := MakeCaptions("BB" + box, pnRaw, qtyRaw, mpnRaw, makerName, cooText, vdText);
      && c.box == "[B]BOX ID:B" + box
      && c.pn[..7] == "[P]P/N:" && Unescape(c.pn[7..]) == pnRaw && IsEscaped(c.pn[7..])
      && c.vd[..3] == "VD:" && Unescape(c.vd[3..]) == vdText && IsEscaped(c.vd[3..])
      && c.qty[..7] == "[Q]QTY:" && Unescape(c.qty[7..]) == qtyRaw && IsEscaped(c.qty[7..])
      && c.mpn[..13] == "[1P]MPN(QVL):" && Unescape(c.mpn[13..]) == mpnRaw && IsEscaped(c.mpn[13..])
      && c.maker[..12] == "MAKER NAME: " && Unescape(c.maker[12..]) == makerName && IsEscaped(c.maker[12..])
      && c.coo[..9] == "(4L)CoO: " && Unescape(c.coo[9..]) == cooText && IsEscaped(c.coo[9..])
  {
    var c := MakeCaptions("BB" + box, pnRaw, qtyRaw, mpnRaw, makerName, cooText, vdText);
    assert ("BB" + box)[..2] == "BB";
    assert ("BB" + box)[2..] == box;
    EscapedValue(pnRaw);
    EscapedValue(vdText);
    EscapedValue(qtyRaw);
    EscapedValue(mpnRaw);
    EscapedValue(makerName);
    EscapedValue(cooText);
    assert c.pn[7..] == EscapeXml(pnRaw);
    assert c.vd[3..] == EscapeXml(vdText);
    assert c.qty[7..] == EscapeXml(qtyRaw);
    assert c.mpn[13..] == EscapeXml(mpnRaw);
    assert c.maker[12..] == EscapeXml(makerName);
    assert c.coo[9..] == EscapeXml(cooText);
  }

  /** The box caption is not escaped: a box id holding `<` puts a raw `<`
      into the caption text of the SVG document. */
  lemma BoxCaptionUnescaped()
    ensures BoxCaption("BB" + "A<B") == "[B]BOX ID:BA<B"
    ensures '<' in BoxCaption("BB" + "A<B")
  {
    assert ("BB" + "A<B")[..2] == "BB";
    assert ("BB" + "A<B")[2..] == "A<B";
  }

  /** What is handed to the rasteriser: the five embedded images (data
      URIs) and the captions; positions and sizes are fixed constants of
      the layout and are not modelled. */
  datatype SvgDoc = SvgDoc(
    boxBarcode: string, pnBarcode: string, qtyBarcode: string, mpnBarcode: string,
    qrImage: string, captions: Captions)
}

/** The plain-text renderer: normalise newlines, split on blank lines, trim, escape, mark up. */
module Render {
  import opened Calls

  const PLAIN_TEXT := "text/plain"

  // ---------------------------------------------------------------- the library steps

  /** First pass: every CR LF pair becomes LF. */
  function JoinCRLF(s: string): string {
    if s == "" then ""
    else if |s| > 1 && s[0] == '\r' && s[1] == '\n' then "\n" + JoinCRLF(s[2..])
    else [s[0]] + JoinCRLF(s[1..])
  }

  function Newline(c: char): char { if c == '\r' then '\n' else c }

  /** Second pass: every CR left over becomes LF. */
  function ReplaceCR(s: string): string {
    seq(|s|, i requires 0 <= i < |s| => Newline(s[i]))
  }

  function Normalize(s: string): string { ReplaceCR(JoinCRLF(s)) }

  predicate StartsBlank(s: string) {
    |s| > 1 && s[0] == '\n' && s[1] == '\n'
  }

  /** The pieces between blank lines, leftmost first; `piece` is the text of the current one. */
  function SplitFrom(piece: string, s: string): seq<string>
    decreases |s|
  {
    if s == "" then [piece]
    else if StartsBlank(s) then [piece] + SplitFrom("", s[2..])
    else SplitFrom(piece + [s[0]], s[1..])
  }

  /** Unicode white space. */
  predicate IsSpace(c: char) {
    c in {'\t', '\n', '\U{B}', '\U{C}', '\r', ' ', '\U{85}', '\U{A0}', '\U{1680}', '\U{2028}',
          '\U{2029}', '\U{202F}', '\U{205F}', '\U{3000}'}
    || '\U{2000}' <= c <= '\U{200A}'
  }

  function TrimLeft(s: string): string {
    if s != "" && IsSpace(s[0]) then TrimLeft(s[1..]) else s
  }

  function TrimRight(s: string): string {
    if s != "" && IsSpace(s[|s| - 1]) then TrimRight(s[..|s| - 1]) else s
  }

  function Trim(s: string): string { TrimRight(TrimLeft(s)) }

  function EscapeChar(c: char): string {
    match c
    case '&' => "&amp;"
    case '<' => "&lt;"
    case '>' => "&gt;"
    case '\"' => "&#34;"
    case '\'' => "&#39;"
    case '\0' => "\U{FFFD}"
    case _ => [c]
  }

  function Escape(s: string): string {
    if s == "" then "" else EscapeChar(s[0]) + Escape(s[1..])
  }

  function BreakLines(s: string): string {
    if s == "" then "" else (if s[0] == '\n' then "<br>" else [s[0]]) + BreakLines(s[1..])
  }

  // ---------------------------------------------------------------- what is rendered

  function Kept(pieces: seq<string>): seq<string> {
    if pieces == [] then []
    else
      var paragraph := Trim(pieces[0]);
      (if paragraph == "" then [] else [paragraph]) + Kept(pieces[1..])
  }

  /** The trimmed, non-empty paragraphs of a body, in order. */
  function Paragraphs(body: string): seq<string> { Kept(SplitFrom("", Normalize(body))) }

  function Block(paragraph: string): string { "<p>" + BreakLines(Escape(paragraph)) + "</p>" }

  function Blocks(paragraphs: seq<string>): string {
    if paragraphs == [] then "" else Block(paragraphs[0]) + Blocks(paragraphs[1..])
  }

  function HTML(body: string): string { Blocks(Paragraphs(body)) }

  /** What has been written after the first `n` pieces. */
  function Written(pieces: seq<string>, n: nat): string
    requires n <= |pieces|
  {
    if n == 0 then ""
    else
      var paragraph := Trim(pieces[n - 1]);
      if paragraph == "" then Written(pieces, n - 1) else Written(pieces, n - 1) + Block(paragraph)
  }

  lemma {:induction false} KeptAppend(ps: seq<string>, qs: seq<string>)
    ensures Kept(ps + qs) == Kept(ps) + Kept(qs)
  {
    if ps == [] {
      assert ps + qs == qs;
    } else {
      assert (ps + qs)[1..] == ps[1..] + qs;
      KeptAppend(ps[1..], qs);
    }
  }

  lemma OnePiece(piece: string)
    ensures Blocks(Kept([piece])) == if Trim(piece) == "" then "" else Block(Trim(piece))
  {
  }

  lemma OneMorePiece(pieces: seq<string>, last: string)
    ensures Blocks(Kept(pieces + [last])) == Blocks(Kept(pieces)) + (if Trim(last) == "" then "" else Block(Trim(last)))
  {
    KeptAppend(pieces, [last]);
    BlocksAppend(Kept(pieces), Kept([last]));
    OnePiece(last);
  }

  lemma TakeOneMore(pieces: seq<string>, n: nat)
    requires n < |pieces|
    ensures pieces[..n + 1] == pieces[..n] + [pieces[n]]
  {
  }

  lemma {:induction false} WrittenIsBlocks(pieces: seq<string>, n: nat)
    requires n <= |pieces|
    ensures Written(pieces, n) == Blocks(Kept(pieces[..n]))
  {
    if n > 0 {
      WrittenIsBlocks(pieces, n - 1);
      TakeOneMore(pieces, n - 1);
      OneMorePiece(pieces[..n - 1], pieces[n - 1]);
    }
  }

  method PlainText(body: string) returns (html: string)
    ensures html == HTML(body)
  {
    var pieces := SplitFrom("", Normalize(body));
    html := "";
    for i := 0 to |pieces|
      invariant html == Written(pieces, i)
    {
      var paragraph := Trim(pieces[i]);
      if paragraph == "" {
        continue;
      }
      var escaped := Escape(paragraph);
      html := html + ("<p>" + BreakLines(escaped) + "</p>");
    }
    WrittenIsBlocks(pieces, |pieces|);
    assert pieces[..|pieces|] == pieces;
  }

  /** Any other content type is refused before rendering. */
  method Fragment(contentType: string, body: string) returns (html: Option<string>)
    ensures html == if contentType == PLAIN_TEXT then Some(HTML(body)) else None
  {
    if contentType != PLAIN_TEXT {
      return None;
    }
    var text := PlainText(body);
    return Some(text);
  }

  // ---------------------------------------------------------------- the decoder

  /** What the markup at the front of `h` stands for, and how long that markup is. */
  function Token(h: string): Option<(char, nat)> {
    if "<br>" <= h then Some(('\n', 4))
    else if "&amp;" <= h then Some(('&', 5))
    else if "&lt;" <= h then Some(('<', 4))
    else if "&gt;" <= h then Some(('>', 4))
    else if "&#34;" <= h then Some(('\"', 5))
    else if "&#39;" <= h then Some(('\'', 5))
    else if h == "" || h[0] in {'<', '>', '&', '\"', '\'', '\0', '\n'} then None
    else Some((h[0], 1))
  }

  /** The text of a block up to its closing tag, and what follows the tag. */
  function DecodeBlock(h: string): (r: Option<(string, string)>)
    ensures r.Some? ==> |r.value.1| < |h|
  {
    if "</p>" <= h then Some(("", h[4..]))
    else match Token(h)
      case None => None
      case Some((c, n)) =>
        match DecodeBlock(h[n..])
        case None => None
        case Some((text, rest)) => Some(([c] + text, rest))
  }

  function Decode(h: string): Option<seq<string>>
    decreases |h|
  {
    if h == "" then Some([])
    else if !("<p>" <= h) then None
    else match DecodeBlock(h[3..])
      case None => None
      case Some((text, rest)) =>
        match Decode(rest)
        case None => None
        case Some(texts) => Some([text] + texts)
  }

  /** A NUL cannot appear in HTML; it is shown as the replacement character. */
  function Shown(s: string): string {
    seq(|s|, i requires 0 <= i < |s| => if s[i] == '\0' then '\U{FFFD}' else s[i])
  }

  function AllShown(ps: seq<string>): seq<string> {
    seq(|ps|, i requires 0 <= i < |ps| => Shown(ps[i]))
  }

  function MarkupChar(c: char): string { if c == '\n' then "<br>" else EscapeChar(c) }

  lemma {:induction false} BreakLinesAppend(a: string, b: string)
    ensures BreakLines(a + b) == BreakLines(a) + BreakLines(b)
  {
    if a == "" {
      assert a + b == b;
    } else {
      assert (a + b)[1..] == a[1..] + b;
      BreakLinesAppend(a[1..], b);
    }
  }

  lemma {:induction false} BreakLinesWithoutNewline(e: string)
    requires '\n' !in e
    ensures BreakLines(e) == e
  {
    if e != "" {
      assert e[0] in e && e == [e[0]] + e[1..];
      BreakLinesWithoutNewline(e[1..]);
    }
  }

  lemma BreakLinesOfChar(c: char)
    ensures BreakLines(EscapeChar(c)) == MarkupChar(c)
  {
    var e := EscapeChar(c);
    if c == '\n' {
      assert e[1..] == "";
    } else {
      BreakLinesWithoutNewline(e);
    }
  }

  /** Escaping and then breaking lines marks up one character at a time. */
  lemma MarkupStep(s: string)
    requires s != ""
    ensures BreakLines(Escape(s)) == MarkupChar(s[0]) + BreakLines(Escape(s[1..]))
  {
    BreakLinesAppend(EscapeChar(s[0]), Escape(s[1..]));
    BreakLinesOfChar(s[0]);
  }

  lemma TokenOfMarkup(c: char, rest: string)
    ensures Token(MarkupChar(c) + rest) == Some((if c == '\0' then '\U{FFFD}' else c, |MarkupChar(c)|))
    ensures !("</p>" <= MarkupChar(c) + rest)
  {
    var h := MarkupChar(c) + rest;
    assert h[..|MarkupChar(c)|] == MarkupChar(c);
    assert h[0] == MarkupChar(c)[0];
    assert |MarkupChar(c)| > 1 ==> h[1] == MarkupChar(c)[1];
    assert |MarkupChar(c)| > 3 ==> h[2] == MarkupChar(c)[2] && h[3] == MarkupChar(c)[3];
  }

  /** One character's markup is read off the front of a block that goes on. */
  lemma DecodeStep(c: char, tail: string, text: string, rest: string)
    requires DecodeBlock(tail) == Some((text, rest))
    ensures DecodeBlock(MarkupChar(c) + tail) == Some(([if c == '\0' then '\U{FFFD}' else c] + text, rest))
  {
    TokenOfMarkup(c, tail);
    assert (MarkupChar(c) + tail)[|MarkupChar(c)|..] == tail;
  }

  lemma ShownStep(s: string)
    requires s != ""
    ensures Shown(s) == [if s[0] == '\0' then '\U{FFFD}' else s[0]] + Shown(s[1..])
  {
  }

  lemma {:induction false} DecodeBlockInvertsMarkup(s: string, close: string, rest: string)
    requires DecodeBlock(close) == Some(("", rest))
    ensures DecodeBlock(BreakLines(Escape(s)) + close) == Some((Shown(s), rest))
  {
    if s == "" {
      assert BreakLines(Escape(s)) + close == close && Shown(s) == "";
    } else {
      var marked := BreakLines(Escape(s[1..]));
      MarkupStep(s);
      Assoc(MarkupChar(s[0]), marked, close);
      DecodeBlockInvertsMarkup(s[1..], close, rest);
      DecodeStep(s[0], marked + close, Shown(s[1..]), rest);
      ShownStep(s);
    }
  }

  lemma Assoc(a: string, b: string, c: string)
    ensures (a + b) + c == a + (b + c)
  {
  }

  lemma BlockCloses(rest: string)
    ensures DecodeBlock("</p>" + rest) == Some(("", rest))
  {
  }

  lemma DecodeOneBlock(p: string, rest: string, texts: seq<string>)
    requires Decode(rest) == Some(texts)
    ensures Decode(Block(p) + rest) == Some([Shown(p)] + texts)
  {
    var open, marked, close := "<p>", BreakLines(Escape(p)), "</p>";
    BlockCloses(rest);
    DecodeBlockInvertsMarkup(p, close + rest, rest);
    Assoc(open + marked, close, rest);
    Assoc(open, marked, close + rest);
    OpensWithTag(marked + (close + rest));
  }

  lemma OpensWithTag(inner: string)
    ensures var h := "<p>" + inner;
            "<p>" <= h && h[3..] == inner
  {
  }

  lemma AllShownStep(ps: seq<string>)
    requires ps != []
    ensures AllShown(ps) == [Shown(ps[0])] + AllShown(ps[1..])
  {
  }

  lemma {:induction false} DecodeInvertsBlocks(ps: seq<string>)
    ensures Decode(Blocks(ps)) == Some(AllShown(ps))
  {
    if ps == [] {
      assert AllShown(ps) == [];
    } else {
      DecodeInvertsBlocks(ps[1..]);
      DecodeOneBlock(ps[0], Blocks(ps[1..]), AllShown(ps[1..]));
      AllShownStep(ps);
    }
  }

  /** The paragraphs can be read back from the page, up to NUL; exactly, when there is none. */
  lemma RenderIsInvertible(body: string)
    ensures Decode(HTML(body)) == Some(AllShown(Paragraphs(body)))
    ensures Decode(HTML(body)) == Some(Paragraphs(body))
       <==> forall p :: p in Paragraphs(body) ==> '\0' !in p
    ensures '\0' !in body ==> Decode(HTML(body)) == Some(Paragraphs(body))
  {
    var ps := Paragraphs(body);
    DecodeInvertsBlocks(ps);
    if forall p :: p in ps ==> '\0' !in p {
      forall i | 0 <= i < |ps| ensures AllShown(ps)[i] == ps[i] {
        assert ps[i] in ps;
        assert Shown(ps[i]) == ps[i];
      }
      assert AllShown(ps) == ps;
    }
    if AllShown(ps) == ps {
      forall p | p in ps ensures '\0' !in p {
        var i :| 0 <= i < |ps| && ps[i] == p;
        assert Shown(p) == p;
        assert forall k :: 0 <= k < |p| ==> Shown(p)[k] == p[k];
      }
    }
    if '\0' !in body {
      ParagraphCharsFromBody(body, '\0');
    }
  }

  lemma {:induction false} KeptCharsFromPieces(piece: string, s: string, c: char)
    requires c !in piece && c !in s
    ensures forall p :: p in Kept(SplitFrom(piece, s)) ==> c !in p
    decreases |s|
  {
    var k := TrimIsSlice(piece);
    if s == "" {
    } else if StartsBlank(s) {
      KeptCharsFromPieces("", s[2..], c);
      assert ([piece] + SplitFrom("", s[2..]))[1..] == SplitFrom("", s[2..]);
    } else {
      assert s[0] in s;
      KeptCharsFromPieces(piece + [s[0]], s[1..], c);
    }
  }

  lemma {:induction false} JoinCRLFChars(s: string, c: char)
    requires c !in s && c != '\n'
    ensures c !in JoinCRLF(s)
  {
    if s != "" {
      assert s[0] in s;
      if |s| > 1 && s[0] == '\r' && s[1] == '\n' {
        JoinCRLFChars(s[2..], c);
      } else {
        JoinCRLFChars(s[1..], c);
      }
    }
  }

  lemma ParagraphCharsFromBody(body: string, c: char)
    requires c !in body && c != '\n'
    ensures forall p :: p in Paragraphs(body) ==> c !in p
  {
    JoinCRLFChars(body, c);
    KeptCharsFromPieces("", Normalize(body), c);
  }

  lemma {:induction false} TrimLeftIsSlice(s: string)
    ensures |TrimLeft(s)| <= |s| && TrimLeft(s) == s[|s| - |TrimLeft(s)|..]
    ensures TrimLeft(s) != "" ==> !IsSpace(TrimLeft(s)[0])
  {
    if s != "" && IsSpace(s[0]) {
      TrimLeftIsSlice(s[1..]);
    }
  }

  lemma {:induction false} TrimRightIsSlice(s: string)
    ensures TrimRight(s) <= s
    ensures TrimRight(s) != "" ==> !IsSpace(TrimRight(s)[|TrimRight(s)| - 1])
  {
    if s != "" && IsSpace(s[|s| - 1]) {
      TrimRightIsSlice(s[..|s| - 1]);
    }
  }

  /** Trimming gives a slice that neither starts nor ends with white space. */
  lemma TrimIsSlice(s: string) returns (i: nat)
    ensures i + |Trim(s)| <= |s| && Trim(s) == s[i..i + |Trim(s)|]
    ensures Trim(s) != "" ==> !IsSpace(Trim(s)[0]) && !IsSpace(Trim(s)[|Trim(s)| - 1])
  {
    TrimLeftIsSlice(s);
    TrimRightIsSlice(TrimLeft(s));
    i := |s| - |TrimLeft(s)|;
  }

  // ---------------------------------------------------------------- the shape of the output

  ghost predicate Unbroken(s: string) {
    forall i :: 0 <= i < |s| - 1 ==> !(s[i] == '\n' && s[i + 1] == '\n')
  }

  /** A paragraph: non-empty, trimmed, free of CR, and never broken by a blank line. */
  ghost predicate IsParagraph(p: string) {
    p != "" && !IsSpace(p[0]) && !IsSpace(p[|p| - 1]) && '\r' !in p && Unbroken(p)
  }

  /** One more character keeps the current piece free of CR and of blank lines. */
  lemma PieceGrows(piece: string, s: string)
    requires '\r' !in piece && '\r' !in s && Unbroken(piece) && s != "" && !StartsBlank(s)
    requires piece != "" && piece[|piece| - 1] == '\n' ==> s[0] != '\n'
    ensures '\r' !in piece + [s[0]] && '\r' !in s[1..] && Unbroken(piece + [s[0]])
    ensures s[0] == '\n' && s[1..] != "" ==> s[1..][0] != '\n'
  {
    assert s[0] in s;
  }

  lemma PieceIsParagraph(piece: string)
    requires '\r' !in piece && Unbroken(piece)
    ensures forall p :: p in Kept([piece]) ==> IsParagraph(p)
  {
    var k := TrimIsSlice(piece);
    assert [piece][1..] == [];
  }

  lemma {:induction false} KeptAreParagraphs(piece: string, s: string)
    requires '\r' !in piece && '\r' !in s && Unbroken(piece)
    requires piece != "" && piece[|piece| - 1] == '\n' && s != "" ==> s[0] != '\n'
    ensures forall p :: p in Kept(SplitFrom(piece, s)) ==> IsParagraph(p)
    decreases |s|
  {
    if s == "" {
      PieceIsParagraph(piece);
    } else if StartsBlank(s) {
      PieceIsParagraph(piece);
      KeptCons(piece, SplitFrom("", s[2..]));
      KeptAreParagraphs("", s[2..]);
    } else {
      PieceGrows(piece, s);
      KeptAreParagraphs(piece + [s[0]], s[1..]);
    }
  }

  lemma ParagraphsAreParagraphs(body: string)
    ensures forall p :: p in Paragraphs(body) ==> IsParagraph(p)
  {
    KeptAreParagraphs("", Normalize(body));
  }

  predicate BreakAt(h: string, i: int) {
    0 <= i && i + 4 <= |h| && h[i] == '<' && h[i + 1] == 'b' && h[i + 2] == 'r' && h[i + 3] == '>'
  }

  /** `&` starts one of the five character references. */
  predicate ReferenceAt(h: string, i: int) {
    0 <= i && exists e :: e in {"&amp;", "&lt;", "&gt;", "&#34;", "&#39;"} && i + |e| <= |h| && h[i..i + |e|] == e
  }

  /** Nothing in `inner` is markup except `<br>` and character references. */
  ghost predicate OnlyBreaks(inner: string) {
    forall i :: 0 <= i < |inner| ==> Harmless(inner, i)
  }

  predicate Harmless(inner: string, i: int)
    requires 0 <= i < |inner|
  {
    && (inner[i] == '<' ==> BreakAt(inner, i))
    && (inner[i] == '>' ==> BreakAt(inner, i - 3))
    && inner[i] !in {'\"', '\'', '\0', '\n'}
    && (inner[i] == '&' ==> ReferenceAt(inner, i))
  }

  lemma HarmlessInFront(a: string, b: string, i: int)
    requires 0 <= i < |a| && Harmless(a, i)
    ensures Harmless(a + b, i)
  {
  }

  lemma HarmlessBehind(a: string, b: string, i: int)
    requires 0 <= i < |b| && Harmless(b, i)
    ensures Harmless(a + b, |a| + i)
  {
  }

  lemma OnlyBreaksAppend(a: string, b: string)
    requires OnlyBreaks(a) && OnlyBreaks(b)
    ensures OnlyBreaks(a + b)
  {
    forall i | 0 <= i < |a + b| ensures Harmless(a + b, i) {
      if i < |a| {
        HarmlessInFront(a, b, i);
      } else {
        HarmlessBehind(a, b, i - |a|);
      }
    }
  }

  lemma ReferenceIsHarmless(m: string)
    requires m in {"&amp;", "&lt;", "&gt;", "&#34;", "&#39;"}
    ensures OnlyBreaks(m)
  {
    assert m[0..|m|] == m;
    assert ReferenceAt(m, 0);
  }

  lemma CharOnlyBreaks(c: char)
    ensures OnlyBreaks(MarkupChar(c))
  {
    if c in {'&', '<', '>', '\"', '\''} {
      ReferenceIsHarmless(MarkupChar(c));
    }
  }

  lemma {:induction false} MarkupOnlyBreaks(s: string)
    ensures OnlyBreaks(BreakLines(Escape(s)))
  {
    if s != "" {
      MarkupStep(s);
      MarkupOnlyBreaks(s[1..]);
      CharOnlyBreaks(s[0]);
      OnlyBreaksAppend(MarkupChar(s[0]), BreakLines(Escape(s[1..])));
    }
  }

  ghost predicate NoDoubleBreak(h: string) {
    forall i :: BreakAt(h, i) ==> !BreakAt(h, i + 4)
  }

  lemma BreakAtShift(a: string, b: string, i: int)
    requires i >= |a|
    ensures BreakAt(a + b, i) <==> BreakAt(b, i - |a|)
  {
  }

  /** Marking up one character in front of text whose first character is not a second break. */
  lemma PrependChar(c: char, tail: string)
    requires NoDoubleBreak(tail) && (c == '\n' ==> !BreakAt(tail, 0))
    ensures NoDoubleBreak(MarkupChar(c) + tail)
    ensures BreakAt(MarkupChar(c) + tail, 0) ==> c == '\n'
  {
    var m := MarkupChar(c);
    var h := m + tail;
    assert forall i :: 0 <= i < |m| ==> h[i] == m[i];
    forall i | BreakAt(h, i) ensures !BreakAt(h, i + 4) {
      if i >= |m| {
        BreakAtShift(m, tail, i);
        BreakAtShift(m, tail, i + 4);
      } else {
        assert h[i] == m[i] == '<';
        BreakAtShift(m, tail, 4);
      }
    }
  }

  lemma UnbrokenTail(s: string)
    requires s != "" && Unbroken(s)
    ensures Unbroken(s[1..]) && (s[0] == '\n' && s[1..] != "" ==> s[1] != '\n')
  {
  }

  lemma {:induction false} MarkupNoDoubleBreak(s: string, rest: string)
    requires Unbroken(s) && NoDoubleBreak(rest) && !BreakAt(rest, 0)
    ensures NoDoubleBreak(BreakLines(Escape(s)) + rest)
    ensures BreakAt(BreakLines(Escape(s)) + rest, 0) ==> s != "" && s[0] == '\n'
  {
    if s == "" {
      assert BreakLines(Escape(s)) + rest == rest;
    } else {
      var marked := BreakLines(Escape(s[1..]));
      MarkupStep(s);
      Assoc(MarkupChar(s[0]), marked, rest);
      UnbrokenTail(s);
      MarkupNoDoubleBreak(s[1..], rest);
      PrependChar(s[0], marked + rest);
    }
  }

  /** Neither `<p>` nor `</p>` is part of a break. */
  lemma PrependTag(tag: string, rest: string)
    requires tag == "<p>" || tag == "</p>"
    requires NoDoubleBreak(rest)
    ensures NoDoubleBreak(tag + rest) && !BreakAt(tag + rest, 0)
  {
    var h := tag + rest;
    assert forall i :: 0 <= i < |tag| ==> h[i] == tag[i];
    forall i | BreakAt(h, i) ensures !BreakAt(h, i + 4) {
      assert i >= |tag|;
      BreakAtShift(tag, rest, i);
      BreakAtShift(tag, rest, i + 4);
    }
  }

  lemma BlockNoDoubleBreak(p: string, rest: string)
    requires IsParagraph(p) && NoDoubleBreak(rest)
    ensures NoDoubleBreak("<p>" + BreakLines(Escape(p)) + "</p>" + rest)
  {
    var open, close, marked := "<p>", "</p>", BreakLines(Escape(p));
    PrependTag(close, rest);
    MarkupNoDoubleBreak(p, close + rest);
    PrependTag(open, marked + (close + rest));
    Assoc(open + marked, close, rest);
    Assoc(open, marked, close + rest);
  }

  lemma {:induction false} BlocksNoDoubleBreak(ps: seq<string>)
    requires forall p :: p in ps ==> IsParagraph(p)
    ensures NoDoubleBreak(Blocks(ps))
  {
    if ps != [] {
      assert IsParagraph(ps[0]);
      BlocksNoDoubleBreak(ps[1..]);
      BlockNoDoubleBreak(ps[0], Blocks(ps[1..]));
    }
  }

  /** The page is a sequence of `<p>` blocks, one a paragraph, whose only inner tag is `<br>`;
      two breaks never follow each other. */
  lemma OutputShape(body: string)
    ensures HTML(body) == Blocks(Paragraphs(body))
    ensures forall p :: p in Paragraphs(body) ==> IsParagraph(p) && OnlyBreaks(BreakLines(Escape(p)))
    ensures NoDoubleBreak(HTML(body))
  {
    ParagraphsAreParagraphs(body);
    forall p | p in Paragraphs(body) ensures OnlyBreaks(BreakLines(Escape(p))) {
      MarkupOnlyBreaks(p);
    }
    BlocksNoDoubleBreak(Paragraphs(body));
  }

  // ---------------------------------------------------------------- composition

  lemma {:induction false} BlocksAppend(ps: seq<string>, qs: seq<string>)
    ensures Blocks(ps + qs) == Blocks(ps) + Blocks(qs)
  {
    if ps == [] {
      assert ps + qs == qs;
    } else {
      assert (ps + qs)[1..] == ps[1..] + qs;
      BlocksAppend(ps[1..], qs);
    }
  }

  lemma {:induction false} TrimLeftSnoc(s: string, c: char)
    ensures TrimLeft(s) != "" ==> TrimLeft(s + [c]) == TrimLeft(s) + [c]
    ensures TrimLeft(s) == "" ==> TrimLeft(s + [c]) == TrimLeft([c])
  {
    if s == "" {
      assert s + [c] == [c];
    } else {
      assert (s + [c])[1..] == s[1..] + [c];
      TrimLeftSnoc(s[1..], c);
    }
  }

  lemma TrimIgnoresNewline(s: string)
    ensures Trim("\n" + s) == Trim(s) && Trim(s + "\n") == Trim(s)
  {
    assert ("\n" + s)[1..] == s;
    TrimLeftSnoc(s, '\n');
    assert TrimLeft("\n") == "";
    var t := TrimLeft(s) + "\n";
    assert t[..|t| - 1] == TrimLeft(s);
  }

  lemma KeptCons(piece: string, pieces: seq<string>)
    ensures Kept([piece] + pieces) == Kept([piece]) + Kept(pieces)
  {
  }

  lemma {:induction false} LeadingNewlineInPiece(piece: string, s: string)
    ensures Kept(SplitFrom("\n" + piece, s)) == Kept(SplitFrom(piece, s))
    decreases |s|
  {
    TrimIgnoresNewline(piece);
    if s == "" {
    } else if StartsBlank(s) {
      KeptCons("\n" + piece, SplitFrom("", s[2..]));
      KeptCons(piece, SplitFrom("", s[2..]));
    } else {
      assert "\n" + piece + [s[0]] == "\n" + (piece + [s[0]]);
      LeadingNewlineInPiece(piece + [s[0]], s[1..]);
    }
  }

  lemma {:induction false} LeadingNewline(s: string)
    ensures Kept(SplitFrom("", "\n" + s)) == Kept(SplitFrom("", s))
  {
    var t := "\n" + s;
    if s != "" && s[0] == '\n' {
      assert t[2..] == s[1..] && s == "\n" + s[1..];
      KeptCons("", SplitFrom("", s[1..]));
      LeadingNewline(s[1..]);
    } else {
      assert t[1..] == s && "" + [t[0]] == "\n" + "";
      LeadingNewlineInPiece("", s);
    }
  }

  lemma KeptOfOneNewline(piece: string)
    ensures Kept(SplitFrom(piece, "\n")) == Kept([piece])
  {
    var s := "\n";
    assert s[1..] == "";
    TrimIgnoresNewline(piece);
  }

  lemma DropWithin(a: string, b: string, k: nat)
    requires k <= |a|
    ensures (a + b)[k..] == a[k..] + b
  {
  }

  /** The text goes on with a blank line. */
  predicate GoesOn(rest: string) { |rest| >= 2 && rest[0] == '\n' && rest[1] == '\n' }

  lemma SplitAtGap(piece: string, rest: string)
    requires GoesOn(rest)
    ensures Kept(SplitFrom(piece, rest)) == Kept([piece]) + Kept(SplitFrom("", rest[2..]))
  {
  }

  lemma SplitAtGapAfterNewline(piece: string, rest: string)
    requires GoesOn(rest)
    ensures Kept(SplitFrom(piece, "\n" + rest)) == Kept([piece]) + Kept(SplitFrom("", rest[2..]))
  {
    var s := "\n" + rest;
    assert s[2..] == "\n" + rest[2..];
    KeptCons(piece, SplitFrom("", s[2..]));
    LeadingNewline(rest[2..]);
  }

  lemma {:induction false} SplitBeforeGap(piece: string, a: string, rest: string)
    requires GoesOn(rest)
    ensures Kept(SplitFrom(piece, a + rest)) == Kept(SplitFrom(piece, a)) + Kept(SplitFrom("", rest[2..]))
    decreases |a|
  {
    if a == "" {
      assert a + rest == rest;
      SplitAtGap(piece, rest);
    } else if a == "\n" {
      SplitAtGapAfterNewline(piece, rest);
      KeptOfOneNewline(piece);
    } else if StartsBlank(a) {
      DropWithin(a, rest, 2);
      SplitBeforeGap("", a[2..], rest);
      KeptCons(piece, SplitFrom("", a[2..] + rest));
      KeptCons(piece, SplitFrom("", a[2..]));
    } else {
      DropWithin(a, rest, 1);
      NotBlankYet(a, rest);
      SplitBeforeGap(piece + [a[0]], a[1..], rest);
    }
  }

  lemma NotBlankYet(a: string, rest: string)
    requires a != "" && a != "\n" && !StartsBlank(a)
    ensures !StartsBlank(a + rest)
  {
  }

  lemma SplitAtBlankLine(piece: string, a: string, b: string)
    ensures Kept(SplitFrom(piece, a + ("\n\n" + b))) == Kept(SplitFrom(piece, a)) + Kept(SplitFrom("", b))
  {
    var rest := "\n\n" + b;
    assert rest[2..] == b;
    SplitBeforeGap(piece, a, rest);
  }

  lemma {:induction false} TrailingNewline(piece: string, s: string)
    ensures Kept(SplitFrom(piece, s + "\n")) == Kept(SplitFrom(piece, s))
    decreases |s|
  {
    var t := s + "\n";
    if s == "" {
      assert t == "\n";
      KeptOfOneNewline(piece);
    } else if s == "\n" {
      assert t[2..] == "";
      KeptOfOneNewline(piece);
      KeptCons(piece, [""]);
    } else if StartsBlank(s) {
      assert t[2..] == s[2..] + "\n";
      TrailingNewline("", s[2..]);
      KeptCons(piece, SplitFrom("", s[2..]));
      KeptCons(piece, SplitFrom("", t[2..]));
    } else {
      assert t[1..] == s[1..] + "\n" && t[0] == s[0];
      assert |s| > 1 ==> t[1] == s[1];
      assert |s| == 1 ==> s == [s[0]];
      TrailingNewline(piece + [s[0]], s[1..]);
    }
  }

  lemma {:induction false} JoinCRLFAppend(a: string, b: string)
    requires a == "" || a[|a| - 1] != '\r' || b == "" || b[0] != '\n'
    ensures JoinCRLF(a + b) == JoinCRLF(a) + JoinCRLF(b)
  {
    if a == "" {
      assert a + b == b;
    } else if |a| > 1 && a[0] == '\r' && a[1] == '\n' {
      DropWithin(a, b, 2);
      JoinCRLFAppend(a[2..], b);
      Assoc("\n", JoinCRLF(a[2..]), JoinCRLF(b));
    } else {
      DropWithin(a, b, 1);
      JoinCRLFAppend(a[1..], b);
      JoinCRLFStep(a + b);
      Assoc([a[0]], JoinCRLF(a[1..]), JoinCRLF(b));
    }
  }

  /** A character that is not the CR of a CR LF pair is kept. */
  lemma JoinCRLFStep(s: string)
    requires s != "" && (s[0] != '\r' || |s| == 1 || s[1] != '\n')
    ensures JoinCRLF(s) == [s[0]] + JoinCRLF(s[1..])
  {
  }

  lemma NormalizeAppend(a: string, b: string)
    requires a == "" || a[|a| - 1] != '\r' || b == "" || b[0] != '\n'
    ensures Normalize(a + b) == Normalize(a) + Normalize(b)
  {
    JoinCRLFAppend(a, b);
  }

  lemma ParagraphsAppend(a: string, b: string)
    ensures Paragraphs(a + "\n\n" + b) == Paragraphs(a) + Paragraphs(b)
  {
    var blank := "\n\n";
    assert Normalize("\n\n") == "\n\n" by {
      assert blank[1..] == "\n" && blank[1..][1..] == "";
    }
    NormalizeAppend("\n\n", b);
    if a != "" && a[|a| - 1] == '\r' {
      var front := a[..|a| - 1];
      var crlf := "\r\n\n";
      assert a == front + "\r" && a + "\n\n" + b == front + (crlf + b);
      NormalizeAppend(front, "\r");
      NormalizeAppend(front, crlf + b);
      NormalizeAppend(crlf, b);
      assert Normalize(crlf) == "\n\n" && Normalize("\r") == "\n" by {
        assert crlf[2..] == "\n" && "\n"[1..] == "" && "\r"[1..] == "";
      }
      assert Normalize(a + "\n\n" + b) == Normalize(front) + ("\n\n" + Normalize(b));
      SplitAtBlankLine("", Normalize(front), Normalize(b));
      TrailingNewline("", Normalize(front));
    } else {
      assert a + "\n\n" + b == a + ("\n\n" + b);
      NormalizeAppend(a, "\n\n" + b);
      assert Normalize(a + "\n\n" + b) == Normalize(a) + ("\n\n" + Normalize(b));
      SplitAtBlankLine("", Normalize(a), Normalize(b));
    }
  }

  /** Rendering is compositional at every blank line. */
  lemma RenderAppend(a: string, b: string)
    ensures HTML(a + "\n\n" + b) == HTML(a) + HTML(b)
  {
    ParagraphsAppend(a, b);
    BlocksAppend(Paragraphs(a), Paragraphs(b));
  }

  function WithNewline(s: string, newline: string): string {
    if s == "" then "" else (if s[0] == '\n' then newline else [s[0]]) + WithNewline(s[1..], newline)
  }

  lemma {:induction false} JoinCRLFIdle(s: string)
    requires '\r' !in s || '\n' !in s
    ensures JoinCRLF(s) == s
  {
    if s != "" {
      assert s[0] in s && s == [s[0]] + s[1..];
      assert |s| > 1 ==> s[1] in s;
      JoinCRLFIdle(s[1..]);
    }
  }

  lemma NormalizeIdle(s: string)
    requires '\r' !in s
    ensures Normalize(s) == s
  {
    JoinCRLFIdle(s);
  }

  lemma {:induction false} CRLFJoins(s: string)
    requires '\r' !in s
    ensures JoinCRLF(WithNewline(s, "\r\n")) == s
  {
    if s != "" {
      assert s[0] in s && s == [s[0]] + s[1..];
      CRLFJoins(s[1..]);
      var t := WithNewline(s, "\r\n");
      if s[0] == '\n' {
        assert t[0] == '\r' && t[1] == '\n' && t[2..] == WithNewline(s[1..], "\r\n");
      } else {
        assert t[1..] == WithNewline(s[1..], "\r\n");
      }
    }
  }

  lemma {:induction false} LoneCR(s: string)
    requires '\r' !in s
    ensures '\n' !in WithNewline(s, "\r") && ReplaceCR(WithNewline(s, "\r")) == s
  {
    if s != "" {
      assert s[0] in s && s == [s[0]] + s[1..];
      LoneCR(s[1..]);
      var t := WithNewline(s, "\r");
      assert ReplaceCR(t) == [Newline(t[0])] + ReplaceCR(t[1..]);
      assert t[1..] == WithNewline(s[1..], "\r");
    }
  }

  /** The three newline conventions render alike. */
  lemma NewlinesDoNotMatter(s: string)
    requires '\r' !in s
    ensures HTML(WithNewline(s, "\r\n")) == HTML(s) && HTML(WithNewline(s, "\r")) == HTML(s)
  {
    NormalizeIdle(s);
    CRLFJoins(s);
    assert ReplaceCR(s) == s;
    LoneCR(s);
    JoinCRLFIdle(WithNewline(s, "\r"));
  }

  // ---------------------------------------------------------------- back from the page

  function Source(ps: seq<string>): string {
    if ps == [] then "" else ps[0] + "\n\n" + Source(ps[1..])
  }

  lemma {:induction false} SplitUnbroken(piece: string, s: string)
    requires Unbroken(s)
    ensures SplitFrom(piece, s) == [piece + s]
    decreases |s|
  {
    if s == "" {
      assert piece + s == piece;
    } else {
      SplitUnbroken(piece + [s[0]], s[1..]);
      assert piece + [s[0]] + s[1..] == piece + s;
    }
  }

  lemma HeadAndTail(ps: seq<string>)
    requires ps != []
    ensures [ps[0]] + ps[1..] == ps
  {
  }

  /** A paragraph on its own is the only paragraph of its text. */
  lemma ParagraphOfItself(p: string)
    requires IsParagraph(p)
    ensures Paragraphs(p) == [p]
  {
    NormalizeIdle(p);
    SplitUnbroken("", p);
    assert "" + p == p && Trim(p) == p;
    assert Kept([p]) == [p] + Kept([]);
  }

  lemma {:induction false} ParagraphsOfSource(ps: seq<string>)
    requires forall p :: p in ps ==> IsParagraph(p)
    ensures Paragraphs(Source(ps)) == ps
  {
    if ps != [] {
      assert IsParagraph(ps[0]);
      ParagraphOfItself(ps[0]);
      ParagraphsAppend(ps[0], Source(ps[1..]));
      ParagraphsOfSource(ps[1..]);
      HeadAndTail(ps);
    }
  }

  /** Reading a page back, separating its paragraphs by blank lines and rendering that source
      gives the same page again. */
  lemma RenderDecodeRender(body: string)
    requires '\0' !in body
    ensures Decode(HTML(body)).Some? && HTML(Source(Decode(HTML(body)).value)) == HTML(body)
  {
    RenderIsInvertible(body);
    ParagraphsAreParagraphs(body);
    ParagraphsOfSource(Paragraphs(body));
  }

  // ---------------------------------------------------------------- no text is lost

  /** The characters that are not white space, in order. */
  function Ink(s: string): string {
    if s == "" then "" else (if IsSpace(s[0]) then "" else [s[0]]) + Ink(s[1..])
  }

  function AllInk(ps: seq<string>): string {
    if ps == [] then "" else Ink(ps[0]) + AllInk(ps[1..])
  }

  lemma {:induction false} InkAppend(a: string, b: string)
    ensures Ink(a + b) == Ink(a) + Ink(b)
  {
    if a == "" {
      assert a + b == b;
    } else {
      assert (a + b)[1..] == a[1..] + b;
      InkAppend(a[1..], b);
    }
  }

  lemma InkOfSpace(c: char)
    requires IsSpace(c)
    ensures Ink([c]) == ""
  {
    assert [c][1..] == "";
  }

  lemma InkSnoc(s: string, c: char)
    ensures Ink(s + [c]) == Ink(s) + (if IsSpace(c) then "" else [c])
  {
    InkAppend(s, [c]);
    assert [c][1..] == "";
  }

  lemma {:induction false} InkOfTrimLeft(s: string)
    ensures Ink(TrimLeft(s)) == Ink(s)
  {
    if s != "" && IsSpace(s[0]) {
      InkOfTrimLeft(s[1..]);
    }
  }

  lemma {:induction false} InkOfTrimRight(s: string)
    ensures Ink(TrimRight(s)) == Ink(s)
  {
    if s != "" && IsSpace(s[|s| - 1]) {
      InkOfTrimRight(s[..|s| - 1]);
      InkSnoc(s[..|s| - 1], s[|s| - 1]);
      assert s[..|s| - 1] + [s[|s| - 1]] == s;
    }
  }

  lemma {:induction false} InkOfKept(pieces: seq<string>)
    ensures AllInk(Kept(pieces)) == AllInk(pieces)
  {
    if pieces != [] {
      InkOfKept(pieces[1..]);
      InkOfTrimLeft(pieces[0]);
      InkOfTrimRight(TrimLeft(pieces[0]));
      KeptHead(pieces);
    }
  }

  lemma KeptHead(pieces: seq<string>)
    requires pieces != []
    ensures var paragraph := Trim(pieces[0]);
            AllInk(Kept(pieces)) == Ink(paragraph) + AllInk(Kept(pieces[1..]))
  {
    var paragraph, rest := Trim(pieces[0]), Kept(pieces[1..]);
    if paragraph == "" {
      assert [] + rest == rest;
    } else {
      assert ([paragraph] + rest)[1..] == rest;
    }
  }

  lemma BlankLineHasNoInk(s: string)
    requires StartsBlank(s)
    ensures Ink(s) == Ink(s[2..])
  {
    assert s[1..][1..] == s[2..];
  }

  lemma {:induction false} InkOfPieces(piece: string, s: string)
    ensures AllInk(SplitFrom(piece, s)) == Ink(piece) + Ink(s)
    decreases |s|
  {
    if s == "" {
      InkOfCons(piece, []);
      assert [piece] + [] == [piece];
    } else if StartsBlank(s) {
      InkOfPieces("", s[2..]);
      BlankLineHasNoInk(s);
      InkOfCons(piece, SplitFrom("", s[2..]));
    } else {
      InkOfPieces(piece + [s[0]], s[1..]);
      InkMoves(piece, s);
    }
  }

  lemma InkOfCons(piece: string, pieces: seq<string>)
    ensures AllInk([piece] + pieces) == Ink(piece) + AllInk(pieces)
  {
    assert ([piece] + pieces)[1..] == pieces;
  }

  lemma InkMoves(piece: string, s: string)
    requires s != ""
    ensures Ink(piece + [s[0]]) + Ink(s[1..]) == Ink(piece) + Ink(s)
  {
    InkAppend(piece + [s[0]], s[1..]);
    InkAppend(piece, s);
    OneCharacterMoves(piece, s);
  }

  lemma OneCharacterMoves(piece: string, s: string)
    requires s != ""
    ensures piece + [s[0]] + s[1..] == piece + s
  {
  }

  lemma {:induction false} InkOfJoinCRLF(s: string)
    ensures Ink(JoinCRLF(s)) == Ink(s)
    decreases |s|
  {
    if |s| > 1 && s[0] == '\r' && s[1] == '\n' {
      InkOfJoinCRLF(s[2..]);
      InkAppend("\n", JoinCRLF(s[2..]));
      InkOfSpace('\n');
      assert s[1..][1..] == s[2..];
    } else if s != "" {
      InkOfJoinCRLF(s[1..]);
      InkAppend([s[0]], JoinCRLF(s[1..]));
      InkSnoc("", s[0]);
      assert "" + [s[0]] == [s[0]];
    }
  }

  lemma {:induction false} InkOfReplaceCR(s: string)
    ensures Ink(ReplaceCR(s)) == Ink(s)
  {
    if s != "" {
      InkOfReplaceCR(s[1..]);
      assert ReplaceCR(s)[1..] == ReplaceCR(s[1..]);
    }
  }

  /** Every character that is not white space is in some paragraph, in the order of the body. */
  lemma NoTextIsLost(body: string)
    ensures AllInk(Paragraphs(body)) == Ink(body)
  {
    InkOfJoinCRLF(body);
    InkOfReplaceCR(JoinCRLF(body));
    InkOfPieces("", Normalize(body));
    InkOfKept(SplitFrom("", Normalize(body)));
  }
}

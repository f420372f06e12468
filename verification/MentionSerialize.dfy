/** Mentions in the mobile composer (apps/mobile/lib/mention-serialize.ts): a zero-width sentinel
    marks each `@name` picked from the suggestion bar, and sending turns the marks into links. */
module MentionSerialize {
  import opened Options

  /** U+2063 INVISIBLE SEPARATOR */
  const SENTINEL: char := '\U{2063}'

  datatype MentionType = ToMember | ToAgent | ToSquad | ToAll | ToIssue

  datatype Marker = Marker(kind: MentionType, id: string, name: string)

  /** The `\s` class of JavaScript. */
  predicate IsSpace(c: char) {
    '\t' <= c <= '\r' || c == ' ' || c == '\U{00A0}' || c == '\U{1680}' || '\U{2000}' <= c <= '\U{200A}'
    || c == '\U{2028}' || c == '\U{2029}' || c == '\U{202F}' || c == '\U{205F}' || c == '\U{3000}' || c == '\U{FEFF}'
  }

  const SPACES :=
    "\t\n\U{0B}\U{0C}\r \U{A0}\U{1680}\U{2000}\U{2001}\U{2002}\U{2003}\U{2004}\U{2005}\U{2006}\U{2007}\U{2008}"
    + "\U{2009}\U{200A}\U{2028}\U{2029}\U{202F}\U{205F}\U{3000}\U{FEFF}"

  /** White space and line terminators, one by one (sections 12.2 and 12.3 of ECMA-262). */
  lemma SpacesAre(c: char)
    ensures IsSpace(c) <==> c in SPACES
  {
  }

  function KindName(k: MentionType): string {
    match k
    case ToMember => "member"
    case ToAgent => "agent"
    case ToSquad => "squad"
    case ToAll => "all"
    case ToIssue => "issue"
  }

  /** The canonical link; issues render without the leading `@`. */
  function Link(m: Marker): string {
    "[" + (if m.kind.ToIssue? then m.name else "@" + m.name) + "](mention://" + KindName(m.kind) + "/" + m.id + ")"
  }

  /** The links of the five kinds. */
  lemma LinksAre(m: Marker)
    ensures Link(m) == match m.kind
                       case ToMember => "[@" + m.name + "](mention://member/" + m.id + ")"
                       case ToAgent => "[@" + m.name + "](mention://agent/" + m.id + ")"
                       case ToSquad => "[@" + m.name + "](mention://squad/" + m.id + ")"
                       case ToAll => "[@" + m.name + "](mention://all/" + m.id + ")"
                       case ToIssue => "[" + m.name + "](mention://issue/" + m.id + ")"
  {
  }

  function Marked(m: Marker): string {
    [SENTINEL, '@'] + m.name
  }

  /** `text.replace(/SENTINEL/g, "")` */
  function Strip(text: string): string {
    if text == "" then "" else (if text[0] == SENTINEL then "" else [text[0]]) + Strip(text[1..])
  }

  /** The length of the word at the front: everything up to the first whitespace. */
  function WordLength(text: string): (n: nat)
    ensures n <= |text|
  {
    if text == "" || IsSpace(text[0]) then 0 else 1 + WordLength(text[1..])
  }

  datatype Scan = Abort | Done(out: string, unused: seq<Marker>)

  function Prepend(pre: string, s: Scan): Scan {
    if s.Done? then Done(pre + s.out, s.unused) else Abort
  }

  /** Left to right, character by character: a sentinel not followed by `@` is dropped, a marked word
      must be the next marker's name, everything else is copied. */
  function ScanText(text: string, markers: seq<Marker>): Scan
    decreases |text|
  {
    if text == "" then Done("", markers)
    else if text[0] != SENTINEL then Prepend([text[0]], ScanText(text[1..], markers))
    else if |text| == 1 || text[1] != '@' then ScanText(text[1..], markers)
    else
      var n := WordLength(text[2..]);
      if markers == [] || markers[0].name != text[2..][..n] then Abort
      else Prepend(Link(markers[0]), ScanText(text[2..][n..], markers[1..]))
  }

  /** What is sent: the linked text if the scan used every marker, else the text without sentinels. */
  function Serialized(text: string, markers: seq<Marker>): string {
    if SENTINEL !in text then text
    else
      var s := ScanText(text, markers);
      if s.Done? && s.unused == [] then s.out else Strip(text)
  }

  function IndexOfSentinel(text: string): (k: nat)
    ensures k <= |text| && SENTINEL !in text[..k]
    ensures k < |text| ==> text[k] == SENTINEL
  {
    if text == "" || text[0] == SENTINEL then 0
    else
      var k := IndexOfSentinel(text[1..]);
      assert text[..k + 1] == [text[0]] + text[1..][..k];
      k + 1
  }

  lemma {:induction false} ScanPlain(plain: string, rest: string, markers: seq<Marker>)
    requires SENTINEL !in plain
    ensures ScanText(plain + rest, markers) == Prepend(plain, ScanText(rest, markers))
  {
    if plain == "" {
      assert plain + rest == rest;
      assert forall s: string :: "" + s == s;
    } else {
      assert (plain + rest)[1..] == plain[1..] + rest && (plain + rest)[0] == plain[0];
      ScanPlain(plain[1..], rest, markers);
      var s := ScanText(rest, markers);
      if s.Done? { assert [plain[0]] + (plain[1..] + s.out) == plain + s.out; }
    }
  }

  lemma PrependTwice(a: string, b: string, s: Scan)
    ensures Prepend(a, Prepend(b, s)) == Prepend(a + b, s)
  {
    if s.Done? { assert a + (b + s.out) == (a + b) + s.out; }
  }

  method SerializeMentions(text: string, markers: seq<Marker>) returns (sent: string)
    ensures sent == Serialized(text, markers)
  {
    if SENTINEL !in text {
      return text;
    }
    var out := "";
    var rest, unused := text, markers;
    var abort := false;
    assert ScanText(text, markers) == Prepend(out, ScanText(rest, unused)) by {
      PrependNothing(ScanText(text, markers));
    }
    while rest != "" && !abort
      invariant ScanText(text, markers) == if abort then Abort else Prepend(out, ScanText(rest, unused))
      decreases |rest|, !abort
    {
      var at := IndexOfSentinel(rest);
      var plain, marked := rest[..at], rest[at..];
      assert rest == plain + marked;
      ScanPlain(plain, marked, unused);
      PrependTwice(out, plain, ScanText(marked, unused));
      out := out + plain;
      if marked == "" {
        rest := "";
      } else if |marked| == 1 || marked[1] != '@' {
        rest := marked[1..];
      } else {
        var n := WordLength(marked[2..]);
        if unused == [] || unused[0].name != marked[2..][..n] {
          abort := true;
        } else {
          PrependTwice(out, Link(unused[0]), ScanText(marked[2..][n..], unused[1..]));
          out := out + Link(unused[0]);
          rest, unused := marked[2..][n..], unused[1..];
        }
      }
    }
    if abort || unused != [] {
      sent := Strip(text);
    } else {
      assert out + "" == out;
      sent := out;
    }
  }

  lemma PrependNothing(s: Scan)
    ensures Prepend("", s) == s
  {
    if s.Done? { assert "" + s.out == s.out; }
  }

  // ----- all or nothing -----

  /** No sentinel in the segment is directly followed by `@`. */
  predicate NoMark(seg: string) {
    |seg| >= 2 ==> !(seg[0] == SENTINEL && seg[1] == '@') && NoMark(seg[1..])
  }

  predicate NoSpace(word: string) {
    word == "" || (!IsSpace(word[0]) && NoSpace(word[1..]))
  }

  /** Segments with one rendered marker between each two. */
  function Weave(segs: seq<string>, markers: seq<Marker>, render: Marker -> string): string
    requires |segs| == |markers| + 1
  {
    if markers == [] then segs[0] else segs[0] + (render(markers[0]) + Weave(segs[1..], markers[1..], render))
  }

  /** The text is the segments with every marker, in order, marked between them; a marked name has no
      whitespace and is followed by whitespace or the end; segments hold no mark of their own. */
  predicate Layout(text: string, segs: seq<string>, markers: seq<Marker>)
    decreases |markers|
  {
    && |segs| == |markers| + 1 && NoMark(segs[0]) && text == Weave(segs, markers, Marked)
    && (markers != [] ==>
          var tail := Weave(segs[1..], markers[1..], Marked);
          && NoSpace(markers[0].name) && (tail == "" || IsSpace(tail[0]))
          && Layout(tail, segs[1..], markers[1..]))
  }

  function StripAll(segs: seq<string>): (r: seq<string>)
    ensures |r| == |segs|
  {
    if segs == [] then [] else [Strip(segs[0])] + StripAll(segs[1..])
  }

  /** The stripped segments with every marker turned into its link. */
  function Linked(segs: seq<string>, markers: seq<Marker>): string
    requires |segs| == |markers| + 1
  {
    Weave(StripAll(segs), markers, Link)
  }

  lemma {:induction false} WordIsName(name: string, tail: string)
    requires NoSpace(name) && (tail == "" || IsSpace(tail[0]))
    ensures WordLength(name + tail) == |name|
  {
    if name == "" {
      assert name + tail == tail;
    } else {
      assert (name + tail)[1..] == name[1..] + tail && (name + tail)[0] == name[0];
      WordIsName(name[1..], tail);
    }
  }

  lemma {:induction false} WordHasNoSpace(text: string)
    ensures var n := WordLength(text); NoSpace(text[..n]) && (text[n..] == "" || IsSpace(text[n..][0]))
  {
    if text != "" && !IsSpace(text[0]) {
      WordHasNoSpace(text[1..]);
      var n := WordLength(text);
      assert text[..n][1..] == text[1..][..n - 1] && text[n..] == text[1..][n - 1..];
    }
  }

  /** Replacing the first segment. */
  lemma WeaveHead(head: string, segs: seq<string>, markers: seq<Marker>, render: Marker -> string)
    requires |segs| == |markers| + 1
    ensures var segs' := [head + segs[0]] + segs[1..];
            Weave(segs', markers, render) == head + Weave(segs, markers, render) && segs'[1..] == segs[1..]
  {
    var segs' := [head + segs[0]] + segs[1..];
    assert segs'[1..] == segs[1..];
    if markers != [] {
      Assoc(head, segs[0], render(markers[0]) + Weave(segs[1..], markers[1..], render));
    }
  }

  lemma NothingBefore(s: string)
    ensures "" + s == s
  {
  }

  lemma Assoc(a: string, b: string, c: string)
    ensures (a + b) + c == a + (b + c)
  {
  }

  lemma LinkedHead(head: string, segs: seq<string>, markers: seq<Marker>)
    requires |segs| == |markers| + 1
    requires Strip(head + segs[0]) == Strip(head) + Strip(segs[0])
    ensures Linked([head + segs[0]] + segs[1..], markers) == Strip(head) + Linked(segs, markers)
  {
    var segs' := [head + segs[0]] + segs[1..];
    assert segs'[1..] == segs[1..];
    assert StripAll(segs') == [Strip(head) + StripAll(segs)[0]] + StripAll(segs)[1..];
    WeaveHead(Strip(head), StripAll(segs), markers, Link);
  }

  lemma StripOne(c: char, rest: string)
    ensures Strip([c] + rest) == Strip([c]) + Strip(rest) && Strip([c]) == if c == SENTINEL then "" else [c]
  {
    assert ([c] + rest)[1..] == rest && [c][1..] == "";
    assert Strip([c]) == (if c == SENTINEL then "" else [c]) + Strip("");
  }

  /** Taking the first character off the first segment. */
  lemma LayoutTail(text: string, segs: seq<string>, markers: seq<Marker>) returns (segs': seq<string>)
    requires Layout(text, segs, markers) && segs[0] != ""
    ensures text != "" && text[0] == segs[0][0] && Layout(text[1..], segs', markers)
    ensures Linked(segs, markers) == (if text[0] == SENTINEL then "" else [text[0]]) + Linked(segs', markers)
    ensures text[0] == SENTINEL ==> |text| == 1 || text[1] != '@'
  {
    var c, seg := segs[0][0], segs[0][1..];
    segs' := [seg] + segs[1..];
    assert segs'[1..] == segs[1..] && segs[0] == [c] + seg && segs == [[c] + segs'[0]] + segs'[1..];
    WeaveHead([c], segs', markers, Marked);
    assert text[1..] == Weave(segs', markers, Marked);
    StripOne(c, seg);
    LinkedHead([c], segs', markers);
    if c == SENTINEL { StrayIsNoMark(text, segs, markers); }
  }

  /** Taking a mark off the front. */
  lemma LayoutMark(text: string, segs: seq<string>, markers: seq<Marker>, tail: string)
    requires Layout(text, segs, markers) && segs[0] == "" && markers != []
    requires tail == Weave(segs[1..], markers[1..], Marked)
    ensures |text| >= 2 && text[0] == SENTINEL && text[1] == '@'
    ensures var n := WordLength(text[2..]); text[2..][..n] == markers[0].name && text[2..][n..] == tail
    ensures Linked(segs, markers) == Link(markers[0]) + Linked(segs[1..], markers[1..])
  {
    var m := markers[0];
    assert text == Marked(m) + tail by { NothingBefore(Marked(m) + tail); }
    Assoc([SENTINEL, '@'], m.name, tail);
    assert text[2..] == m.name + tail;
    WordIsName(m.name, tail);
    assert StripAll(segs)[1..] == StripAll(segs[1..]);
    var rest := Link(m) + Linked(segs[1..], markers[1..]);
    assert "" + rest == rest;
  }

  /** Every layout is found by the scan, whatever strays its segments hold. */
  lemma {:induction false} LayoutIsScanned(text: string, segs: seq<string>, markers: seq<Marker>)
    requires Layout(text, segs, markers)
    ensures ScanText(text, markers) == Done(Linked(segs, markers), [])
    decreases |text|
  {
    if segs[0] != "" {
      var segs' := LayoutTail(text, segs, markers);
      LayoutIsScanned(text[1..], segs', markers);
      assert "" + Linked(segs', markers) == Linked(segs', markers);
    } else if markers != [] {
      var tail := Weave(segs[1..], markers[1..], Marked);
      LayoutMark(text, segs, markers, tail);
      LayoutIsScanned(tail, segs[1..], markers[1..]);
    }
  }

  /** A sentinel at the front of a segment is not followed by `@`. */
  lemma StrayIsNoMark(text: string, segs: seq<string>, markers: seq<Marker>)
    requires Layout(text, segs, markers) && segs[0] != "" && segs[0][0] == SENTINEL
    ensures |text| == 1 || text[1] != '@'
  {
    if |segs[0]| == 1 && markers != [] {
      assert text == [SENTINEL] + (Marked(markers[0]) + Weave(segs[1..], markers[1..], Marked));
    } else if |segs[0]| >= 2 && markers != [] {
      assert text == segs[0] + (Marked(markers[0]) + Weave(segs[1..], markers[1..], Marked));
    }
  }

  lemma LayoutPut(text: string, segs: seq<string>, markers: seq<Marker>, c: char)
    requires Layout(text, segs, markers)
    requires c == SENTINEL ==> text == "" || text[0] != '@'
    ensures Layout([c] + text, [[c] + segs[0]] + segs[1..], markers)
  {
    WeaveHead([c], segs, markers, Marked);
    assert ([c] + segs[0])[1..] == segs[0];
    if segs[0] != "" { FirstChar(text, segs, markers); }
  }

  lemma LayoutPutMark(tail: string, segs: seq<string>, markers: seq<Marker>, m: Marker)
    requires Layout(tail, segs, markers) && NoSpace(m.name) && (tail == "" || IsSpace(tail[0]))
    ensures Layout(Marked(m) + tail, [""] + segs, [m] + markers)
  {
    assert ([""] + segs)[1..] == segs && ([m] + markers)[1..] == markers;
    assert "" + (Marked(m) + tail) == Marked(m) + tail;
  }

  /** A scan that uses every marker has found a layout. */
  lemma {:induction false} ScanFindsLayout(text: string, markers: seq<Marker>) returns (segs: seq<string>)
    requires ScanText(text, markers).Done? && ScanText(text, markers).unused == []
    ensures Layout(text, segs, markers)
    decreases |text|
  {
    if text == "" {
      segs := [""];
    } else if text[0] != SENTINEL || |text| == 1 || text[1] != '@' {
      var rest := ScanFindsLayout(text[1..], markers);
      LayoutPut(text[1..], rest, markers, text[0]);
      assert text == [text[0]] + text[1..];
      segs := [[text[0]] + rest[0]] + rest[1..];
    } else {
      var tail := MarkInFront(text, markers[0]);
      var rest := ScanFindsLayout(tail, markers[1..]);
      LayoutPutMark(tail, rest, markers[1..], markers[0]);
      assert [markers[0]] + markers[1..] == markers;
      segs := [""] + rest;
    }
  }

  lemma MarkInFront(text: string, m: Marker) returns (tail: string)
    requires |text| >= 2 && text[0] == SENTINEL && text[1] == '@' && m.name == text[2..][..WordLength(text[2..])]
    ensures tail == text[2..][WordLength(text[2..])..]
    ensures text == Marked(m) + tail && NoSpace(m.name) && (tail == "" || IsSpace(tail[0]))
  {
    var after := text[2..];
    WordHasNoSpace(after);
    tail := after[WordLength(after)..];
    assert after == m.name + tail && text == [SENTINEL, '@'] + after;
  }

  lemma FirstChar(text: string, segs: seq<string>, markers: seq<Marker>)
    requires Layout(text, segs, markers) && segs[0] != ""
    ensures text != "" && text[0] == segs[0][0]
  {
    if markers != [] {
      assert text == segs[0] + (Marked(markers[0]) + Weave(segs[1..], markers[1..], Marked));
    }
  }

  lemma {:induction false} StripFree(text: string)
    ensures SENTINEL !in Strip(text)
    ensures SENTINEL !in text ==> Strip(text) == text
  {
    if text != "" {
      StripFree(text[1..]);
      assert text == [text[0]] + text[1..];
    }
  }

  /** All or nothing: a text in which every marker, in order, is properly marked is sent with exactly
      those marks turned into links; every other text is sent with no link at all. */
  lemma AllLinkedOrPlain(text: string, markers: seq<Marker>)
    ensures forall segs :: Layout(text, segs, markers) ==> Serialized(text, markers) == Linked(segs, markers)
    ensures (forall segs :: !Layout(text, segs, markers)) ==> Serialized(text, markers) == Strip(text)
  {
    StripFree(text);
    forall segs | Layout(text, segs, markers) ensures Serialized(text, markers) == Linked(segs, markers) {
      LayoutIsScanned(text, segs, markers);
      if SENTINEL !in text {
        assert text + "" == text;
        ScanPlain(text, "", markers);
        assert Prepend(text, ScanText("", markers)) == Done(text, markers);
      }
    }
    var s := ScanText(text, markers);
    if s.Done? && s.unused == [] {
      var segs := ScanFindsLayout(text, markers);
      assert Layout(text, segs, markers);
    }
  }

  // ----- no sentinel leaves the composer -----

  predicate Clean(markers: seq<Marker>) {
    forall m <- markers :: SENTINEL !in m.name && SENTINEL !in m.id
  }

  predicate CleanScan(s: Scan) {
    s.Done? ==> SENTINEL !in s.out
  }

  lemma PrependClean(pre: string, s: Scan)
    requires SENTINEL !in pre && CleanScan(s)
    ensures CleanScan(Prepend(pre, s))
  {
  }

  lemma {:induction false} ScanIsClean(text: string, markers: seq<Marker>)
    requires Clean(markers)
    ensures CleanScan(ScanText(text, markers))
    decreases |text|
  {
    if text == "" {
    } else if text[0] != SENTINEL {
      ScanIsClean(text[1..], markers);
      PrependClean([text[0]], ScanText(text[1..], markers));
    } else if |text| == 1 || text[1] != '@' {
      ScanIsClean(text[1..], markers);
    } else {
      var n := WordLength(text[2..]);
      if markers != [] && markers[0].name == text[2..][..n] {
        var rest := text[2..][n..];
        ScanIsClean(rest, markers[1..]);
        PrependClean(Link(markers[0]), ScanText(rest, markers[1..]));
      }
    }
  }

  /** With sentinel-free names and ids nothing sent contains a sentinel. */
  lemma SentIsClean(text: string, markers: seq<Marker>)
    requires Clean(markers)
    ensures SENTINEL !in Serialized(text, markers)
  {
    ScanIsClean(text, markers);
    StripFree(text);
  }

  // ----- picking mentions while typing -----

  /** Replace the `@` and the query after it by the marked name and a space. */
  function InsertMention(text: string, start: nat, queryLength: nat, m: Marker): string
    requires start + 1 + queryLength <= |text|
  {
    text[..start] + (Marked(m) + " ") + text[start + 1 + queryLength..]
  }

  /** The `@` at `start` opens a word that runs up to the cursor. */
  predicate IsToken(text: string, cursor: int, start: int) {
    && 0 <= start < cursor <= |text| && text[start] == '@'
    && (forall k :: start < k < cursor ==> text[k] != '@' && !IsSpace(text[k]))
    && (start > 0 ==> IsSpace(text[start - 1]))
  }

  /** An `@` and what is typed after it are a token exactly when the `@` stands at the front or behind a space, and
      the word has no space and no further `@`. */
  lemma TypedTokenIff(before: string, word: string, after: string)
    ensures IsToken(before + "@" + word + after, |before| + 1 + |word|, |before|) <==>
            && (before == "" || IsSpace(before[|before| - 1]))
            && forall c <- word :: c != '@' && !IsSpace(c)
  {
    var text, start, cursor := before + "@" + word + after, |before|, |before| + 1 + |word|;
    assert text[start] == '@' && (before != "" ==> text[start - 1] == before[|before| - 1]);
    forall k | start < k < cursor ensures text[k] == word[k - start - 1] && text[k] in word {
    }
    forall c | c in word ensures exists k :: start < k < cursor && text[k] == c {
      var i :| 0 <= i < |word| && word[i] == c;
      assert text[start + 1 + i] == c;
    }
    assert (forall k :: start < k < cursor ==> text[k] != '@' && !IsSpace(text[k])) <==>
           (forall c <- word :: c != '@' && !IsSpace(c));
  }

  lemma TokenIsUnique(text: string, cursor: int, a: int, b: int)
    requires IsToken(text, cursor, a) && IsToken(text, cursor, b)
    ensures a == b
  {
  }

  /** The mention being typed at the cursor, if any. */
  method TokenAtCursor(text: string, cursor: int) returns (token: Option<(nat, string)>)
    ensures token.Some? ==> IsToken(text, cursor, token.value.0) && token.value.1 == text[token.value.0 + 1..cursor]
    ensures token.None? ==> forall start :: !IsToken(text, cursor, start)
  {
    if cursor < 1 || cursor > |text| {
      return None;
    }
    var i := cursor - 1;
    while i >= 0 && text[i] != '@'
      invariant -1 <= i < cursor
      invariant forall k :: i < k < cursor ==> text[k] != '@' && !IsSpace(text[k])
    {
      if IsSpace(text[i]) {
        return None;
      }
      i := i - 1;
    }
    if i < 0 || (i > 0 && !IsSpace(text[i - 1])) {
      return None;
    }
    token := Some((i, text[i + 1..cursor]));
  }

  /** Typing some text, or typing `@query` and picking a mention for it, at the end of the text. */
  datatype Input = Typed(text: string) | Picked(query: string, marker: Marker)

  datatype Composer = Composer(text: string, markers: seq<Marker>)

  function Enter(c: Composer, i: Input): Composer {
    match i
    case Typed(t) => Composer(c.text + t, c.markers)
    case Picked(q, m) => Composer(InsertMention(c.text + ("@" + q), |c.text|, |q|, m), c.markers + [m])
  }

  function EnterAll(c: Composer, inputs: seq<Input>): Composer
    decreases |inputs|
  {
    if inputs == [] then c else EnterAll(Enter(c, inputs[0]), inputs[1..])
  }

  /** What the author means to send. */
  function Meant(inputs: seq<Input>): string {
    if inputs == [] then ""
    else (match inputs[0] case Typed(t) => t case Picked(_, m) => Link(m) + " ") + Meant(inputs[1..])
  }

  /** The composed text and markers, seen from the front. */
  function TextOf(inputs: seq<Input>): string {
    if inputs == [] then ""
    else (match inputs[0] case Typed(t) => t case Picked(_, m) => Marked(m) + " ") + TextOf(inputs[1..])
  }

  function MarkersOf(inputs: seq<Input>): seq<Marker> {
    if inputs == [] then [] else (if inputs[0].Picked? then [inputs[0].marker] else []) + MarkersOf(inputs[1..])
  }

  lemma {:induction false} EnteredText(c: Composer, inputs: seq<Input>)
    ensures EnterAll(c, inputs) == Composer(c.text + TextOf(inputs), c.markers + MarkersOf(inputs))
    decreases |inputs|
  {
    if inputs == [] {
      assert c.text + "" == c.text && c.markers + [] == c.markers;
    } else {
      var next := Enter(c, inputs[0]);
      EnteredText(next, inputs[1..]);
      match inputs[0]
      case Typed(t) =>
        Assoc(c.text, t, TextOf(inputs[1..]));
        assert next.markers + MarkersOf(inputs[1..]) == c.markers + ([] + MarkersOf(inputs[1..]));
      case Picked(q, m) =>
        var typed := c.text + ("@" + q);
        assert typed[..|c.text|] == c.text && typed[|c.text| + 1 + |q|..] == "";
        assert next.text == c.text + (Marked(m) + " ");
        Assoc(c.text, Marked(m) + " ", TextOf(inputs[1..]));
        assert (c.markers + [m]) + MarkersOf(inputs[1..]) == c.markers + ([m] + MarkersOf(inputs[1..]));
    }
  }

  predicate PlainInputs(inputs: seq<Input>) {
    forall i <- inputs :: if i.Typed? then SENTINEL !in i.text else NoSpace(i.marker.name)
  }

  lemma ScanMark(m: Marker, tail: string, unused: seq<Marker>)
    requires NoSpace(m.name) && (tail == "" || IsSpace(tail[0]))
    ensures ScanText(Marked(m) + tail, [m] + unused) == Prepend(Link(m), ScanText(tail, unused))
  {
    var text := Marked(m) + tail;
    assert text == [SENTINEL, '@'] + (m.name + tail) && text[2..] == m.name + tail;
    WordIsName(m.name, tail);
    assert text[2..][..|m.name|] == m.name && text[2..][|m.name|..] == tail;
    assert ([m] + unused)[1..] == unused;
  }

  lemma {:induction false} ComposedIsScanned(inputs: seq<Input>)
    requires PlainInputs(inputs)
    ensures ScanText(TextOf(inputs), MarkersOf(inputs)) == Done(Meant(inputs), [])
  {
    if inputs != [] {
      var rest, unused := TextOf(inputs[1..]), MarkersOf(inputs[1..]);
      ComposedIsScanned(inputs[1..]);
      match inputs[0]
      case Typed(t) =>
        ScanPlain(t, rest, unused);
        assert [] + unused == unused;
      case Picked(_, m) =>
        Assoc(Marked(m), " ", rest);
        ScanMark(m, " " + rest, unused);
        ScanPlain(" ", rest, unused);
        Assoc(Link(m), " ", Meant(inputs[1..]));
    }
  }

  /** Whatever is typed and picked from left to right is sent as meant: every picked mention is a
      link, in order, and the typed text is untouched. */
  lemma ComposedMessageRoundTrips(inputs: seq<Input>)
    requires PlainInputs(inputs)
    ensures var c := EnterAll(Composer("", []), inputs);
            Serialized(c.text, c.markers) == Meant(inputs)
  {
    EnteredText(Composer("", []), inputs);
    ComposedIsScanned(inputs);
    var c := EnterAll(Composer("", []), inputs);
    assert c.text == TextOf(inputs) && c.markers == MarkersOf(inputs);
    if SENTINEL !in c.text {
      ScanPlain(c.text, "", c.markers);
      assert c.text + "" == c.text;
      assert Prepend(c.text, ScanText("", c.markers)) == Done(c.text, c.markers);
    }
  }

  /** A name with whitespace in it is never linked: its mark makes the whole message plain. */
  lemma SpacedNameIsNeverLinked(text: string, markers: seq<Marker>)
    requires exists m <- markers :: !NoSpace(m.name)
    ensures Serialized(text, markers) == Strip(text)
  {
    forall segs ensures !Layout(text, segs, markers) {
      if Layout(text, segs, markers) { LayoutNames(text, segs, markers); }
    }
    AllLinkedOrPlain(text, markers);
  }

  lemma {:induction false} LayoutNames(text: string, segs: seq<string>, markers: seq<Marker>)
    requires Layout(text, segs, markers)
    ensures forall m <- markers :: NoSpace(m.name)
    decreases |markers|
  {
    if markers != [] {
      LayoutNames(Weave(segs[1..], markers[1..], Marked), segs[1..], markers[1..]);
      assert markers == [markers[0]] + markers[1..];
    }
  }

  lemma {:induction false} StripConcat(a: string, b: string)
    ensures Strip(a + b) == Strip(a) + Strip(b)
  {
    if a == "" {
      assert a + b == b;
    } else {
      assert (a + b)[1..] == a[1..] + b && (a + b)[0] == a[0];
      StripConcat(a[1..], b);
      Assoc(if a[0] == SENTINEL then "" else [a[0]], Strip(a[1..]), Strip(b));
    }
  }

  function Plain(m: Marker): string {
    "@" + m.name
  }

  /** The linked form differs from the stripped text only in that each `@name` became its link. */
  lemma {:induction false} LinksReplacePlainMentions(text: string, segs: seq<string>, markers: seq<Marker>)
    requires Layout(text, segs, markers) && Clean(markers)
    ensures Strip(text) == Weave(StripAll(segs), markers, Plain)
    decreases |markers|
  {
    if markers != [] {
      var m, tail := markers[0], Weave(segs[1..], markers[1..], Marked);
      LinksReplacePlainMentions(tail, segs[1..], markers[1..]);
      assert StripAll(segs)[1..] == StripAll(segs[1..]);
      StripConcat(segs[0], Marked(m) + tail);
      StripConcat(Marked(m), tail);
      StripConcat([SENTINEL, '@'], m.name);
      StripFree(m.name);
      StripOne(SENTINEL, "@");
      StripFree("@");
      assert [SENTINEL] + "@" == [SENTINEL, '@'] && "" + "@" == "@";
      assert Strip(Marked(m)) == Plain(m);
    }
  }
}

/**
 * The colour markup of console messages: `text<green>phrase</green>more`
 * stands for an uncoloured segment, a green one and another uncoloured one.
 * `Scan` is the meaning of a message as a recursive definition; `Parse` is the
 * index-walking tokenizer, proved to compute it; the lemmas say what the
 * meaning is: plain text stays one segment, every tag flushes the pending
 * text, the three errors and where each arises, and rendering a well-formed
 * document and parsing it back gives its text and its colours back.
 */
module ColorConsole {
  import opened Wrappers
  import opened Text

  datatype Color = Blue | DarkCyan | Cyan | Green | Red | Yellow

  /** The supported tag names. */
  const ColorMap: map<string, Color> :=
    map["blue" := Blue, "darkcyan" := DarkCyan, "cyan" := Cyan,
        "green" := Green, "red" := Red, "yellow" := Yellow]

  function ColorOf(name: string): (r: Option<Color>)
    ensures r.Some? <==> name in ColorMap
    ensures r.Some? ==> ColorMap[name] == r.value
  {
    if name in ColorMap then Some(ColorMap[name]) else None
  }

  /** The tag name of a colour. */
  function Name(c: Color): (n: string)
    ensures n in ColorMap && ColorMap[n] == c
  {
    match c
    case Blue => "blue"
    case DarkCyan => "darkcyan"
    case Cyan => "cyan"
    case Green => "green"
    case Red => "red"
    case Yellow => "yellow"
  }

  /** No supported tag name holds a bracket. */
  lemma TagNamesPlain(name: string)
    requires name in ColorMap
    ensures '<' !in name && '>' !in name
  {
    assert name == "blue" || name == "darkcyan" || name == "cyan" ||
           name == "green" || name == "red" || name == "yellow";
  }

  /** One segment of a parsed message: no colour, or a supported one. */
  datatype ColorString = ColorString(color: Option<Color>, value: string)

  datatype ParseError =
    | InvalidFormat
    | UnsupportedColor(name: string)
    | NoClosingTag(name: string)
      /** A '<' as the last character: the character after it is read anyway. */
    | IndexOutOfRange

  function Message(e: ParseError): string
  {
    match e
    case InvalidFormat => "Invalid color string format"
    case UnsupportedColor(n) => "Unsupported color: " + n
    case NoClosingTag(n) => "No closing tag for color: " + n
    case IndexOutOfRange => "Index was outside the bounds of the array."
  }

  function Closer(name: string): (c: string)
    ensures |c| == |name| + 3 && c[0] == '<'
  {
    "</" + name + ">"
  }

  /** The pending uncoloured text at the end of the message, if non-empty. */
  function Flush(working: string): (segs: seq<ColorString>)
    ensures segs == [] <==> working == []
    ensures segs != [] ==> segs == [ColorString(None, working)]
  {
    if working == [] then [] else [ColorString(None, working)]
  }

  function Prepend(prefix: seq<ColorString>, r: Result<seq<ColorString>, ParseError>): (p: Result<seq<ColorString>, ParseError>)
    ensures p.Success? <==> r.Success?
    ensures p.Success? ==> p.value == prefix + r.value
    ensures p.Failure? ==> p == r
  {
    if r.Success? then Success(prefix + r.value) else r
  }

  lemma PrependPrepend(a: seq<ColorString>, b: seq<ColorString>, r: Result<seq<ColorString>, ParseError>)
    ensures Prepend(a, Prepend(b, r)) == Prepend(a + b, r)
  {
    if r.Success? {
      assert a + (b + r.value) == (a + b) + r.value;
    }
  }

  /**
   * The tag name after a '<': the characters up to the next '>', and the text
   * after that '>'. Reading past the end is the index error; running into the
   * last character without a '>' is the format error.
   */
  function TagName(t: string): (r: Result<(string, string), ParseError>)
    ensures r.Success? ==> |r.value.1| < |t|
  {
    if t == [] then Failure(IndexOutOfRange)
    else if t[0] == '>' then Success(([], t[1..]))
    else if |t| == 1 then Failure(InvalidFormat)
    else match TagName(t[1..])
      case Failure(e) => Failure(e)
      case Success((name, after)) => Success(([t[0]] + name, after))
  }

  /** Without a '>' the tag name cannot end: the index error on empty text, the format error otherwise. */
  lemma {:induction false} TagNameFails(t: string)
    requires '>' !in t
    ensures TagName(t) == Failure(if t == [] then IndexOutOfRange else InvalidFormat)
    decreases |t|
  {
    if t != [] {
      assert t[0] in t;
      if |t| > 1 {
        assert forall k :: 0 <= k < |t[1..]| ==> t[1..][k] == t[k + 1];
        TagNameFails(t[1..]);
      }
    }
  }

  /** A name without '>' followed by '>' is read as the tag name, and the rest is what follows. */
  lemma {:induction false} TagNameSplit(name: string, after: string)
    requires '>' !in name
    ensures TagName(name + ">" + after) == Success((name, after))
    decreases |name|
  {
    var t := name + ">" + after;
    if name == [] {
      assert t[0] == '>' && t[1..] == after;
    } else {
      assert t[0] == name[0] && name[0] != '>';
      assert t[1..] == name[1..] + ">" + after;
      TagNameSplit(name[1..], after);
      assert [t[0]] + name[1..] == name;
    }
  }

  /**
   * The meaning of the rest `s` of a message, `working` being the uncoloured
   * text read since the last segment.
   */
  function Scan(s: string, working: string): Result<seq<ColorString>, ParseError>
    decreases |s|, 2
  {
    if s == [] then Success(Flush(working))
    else if s[0] != '<' then Scan(s[1..], working + [s[0]])
    else match TagName(s[1..])
      case Failure(e) => Failure(e)
      case Success(tag) => ScanTagged(tag.0, tag.1, working)
  }

  /**
   * The meaning of the text `after` an opening tag `name`: the tag must be a
   * supported colour with a closing tag later on; the phrase up to the first
   * closing tag is a coloured segment, after the pending uncoloured one.
   */
  function ScanTagged(name: string, after: string, working: string): Result<seq<ColorString>, ParseError>
    decreases |after|, 1
  {
    if name !in ColorMap then Failure(UnsupportedColor(name))
    else ScanPhrase(ColorMap[name], name, after, working)
  }

  /** The text after an opening tag of a supported colour. */
  function ScanPhrase(color: Color, name: string, after: string, working: string): Result<seq<ColorString>, ParseError>
    decreases |after|, 0
  {
    match Find(after, Closer(name))
    case None => Failure(NoClosingTag(name))
    case Some(c) =>
      Prepend([ColorString(None, working), ColorString(Some(color), after[..c])],
        Scan(after[c + |Closer(name)|..], []))
  }

  function Markup(message: string): Result<seq<ColorString>, ParseError>
  {
    Scan(message, [])
  }

  /**
   * The tokenizer: one index over the message. A '<' flushes the pending
   * uncoloured text; `ReadColored` reads the tag, its phrase and its closing
   * tag, and leaves the index on the closing tag's '>'.
   */
  method Parse(message: string) returns (r: Result<seq<ColorString>, ParseError>)
    ensures r == Markup(message)
  {
    var segs: seq<ColorString> := [];
    var working: string := [];
    var i := 0;
    assert message[i..] == message;
    if Scan(message, working).Success? {
      assert segs + Scan(message, working).value == Scan(message, working).value;
    }
    while i < |message|
      invariant 0 <= i <= |message|
      invariant Markup(message) == Prepend(segs, Scan(message[i..], working))
      decreases |message| - i
    {
      var c := message[i];
      if c != '<' {
        assert message[i..][0] == c && message[i..][1..] == message[i + 1..];
        working := working + [c];
      } else {
        ghost var before := segs;
        ghost var pending := working;
        segs := segs + [ColorString(None, working)];
        working := [];
        var colored := ReadColored(message, i, pending);
        if colored.Failure? {
          return Failure(colored.error);
        }
        segs := segs + [colored.value.0];
        i := colored.value.1;
        PrependPrepend(before, [ColorString(None, pending), colored.value.0], Scan(message[i + 1..], []));
        assert segs == before + [ColorString(None, pending), colored.value.0];
      }
      i := i + 1;
    }
    assert message[i..] == [];
    if |working| > 0 {
      segs := segs + [ColorString(None, working)];
    } else {
      assert segs + [] == segs;
    }
    r := Success(segs);
  }

  /**
   * From a '<' at `open`: the tag name, the colour it names, the first
   * closing tag for it and the phrase before that; the coloured segment and
   * the index of the closing tag's '>'. `pending` is the uncoloured text the
   * '<' flushed.
   */
  method ReadColored(message: string, open: nat, ghost pending: string)
      returns (r: Result<(ColorString, nat), ParseError>)
    requires open < |message| && message[open] == '<'
    ensures r.Success? ==> open < r.value.1 < |message|
    ensures r.Success? ==>
              Scan(message[open..], pending)
              == Prepend([ColorString(None, pending), r.value.0], Scan(message[r.value.1 + 1..], []))
    ensures r.Failure? ==> Scan(message[open..], pending) == Failure(r.error)
  {
    var i := open;
    i := i + 1;
    var tag := ReadColorName(message, i);
    TagStart(message, open, pending);
    if tag.Failure? {
      return Failure(tag.error);
    }
    var colorName := tag.value.0;
    i := tag.value.1;
    i := i + 1;

    if colorName !in ColorMap {
      return Failure(UnsupportedColor(colorName));
    }
    var color := ColorMap[colorName];

    var closerIndex := IndexOf(message, Closer(colorName), i);
    if closerIndex < i {
      return Failure(NoClosingTag(colorName));
    }

    var phrase := ReadPhrase(message, i, closerIndex);
    r := Success((ColorString(Some(color), phrase), closerIndex + 2 + |colorName|));
    ColoredOutcome(message, open, i, closerIndex, colorName, pending, r);
  }

  /** The outcome of reading one coloured phrase, in the form `ReadColored` promises it. */
  lemma ColoredOutcome(message: string, open: nat, from: nat, closer: nat, name: string, working: string,
                       r: Result<(ColorString, nat), ParseError>)
    requires open < from <= closer <= |message| && message[open] == '<'
    requires TagName(message[open + 1..]) == Success((name, message[from..]))
    requires name in ColorMap && IndexOf(message, Closer(name), from) == closer
    requires r == Success((ColorString(Some(ColorMap[name]), message[from..closer]), closer + 2 + |name|))
    ensures r.Success? ==> open < r.value.1 < |message|
    ensures r.Success? ==>
              Scan(message[open..], working)
              == Prepend([ColorString(None, working), r.value.0], Scan(message[r.value.1 + 1..], []))
  {
    TagStep(message, open, from, closer, closer + 2 + |name|, name, working);
  }

  /**
   * The tag-name loop: reads from `start` up to the next '>'. Reading the
   * character at the end of the message is the index error; reaching the last
   * character without a '>' is the format error. On success, the name and
   * the index of the '>'.
   */
  method ReadColorName(message: string, start: nat) returns (r: Result<(string, nat), ParseError>)
    requires start <= |message|
    ensures r.Success? ==> start <= r.value.1 < |message| && message[r.value.1] == '>'
    ensures r.Success? ==> TagName(message[start..]) == Success((r.value.0, message[r.value.1 + 1..]))
    ensures r.Failure? ==> TagName(message[start..]) == Failure(r.error)
  {
    var colorName: string := [];
    var i := start;
    while i >= |message| || message[i] != '>'
      invariant start <= i <= |message|
      invariant i < |message| || i == start
      invariant colorName == message[start..i] && '>' !in colorName
      decreases |message| - i
    {
      if i >= |message| {
        assert message[start..] == [];
        TagNameFails(message[start..]);
        return Failure(IndexOutOfRange);
      }
      if i + 1 >= |message| {
        assert message[start..] == colorName + [message[i]];
        TagNameFails(message[start..]);
        return Failure(InvalidFormat);
      }
      colorName := colorName + [message[i]];
      i := i + 1;
    }
    assert message[start..] == colorName + ">" + message[i + 1..];
    TagNameSplit(colorName, message[i + 1..]);
    r := Success((colorName, i));
  }

  /** The phrase loop: the characters from `from` up to `to`. */
  method ReadPhrase(message: string, from: nat, to: nat) returns (phrase: string)
    requires from <= to <= |message|
    ensures phrase == message[from..to]
  {
    phrase := [];
    var i := from;
    while i < to
      invariant from <= i <= to
      invariant phrase == message[from..i]
    {
      phrase := phrase + [message[i]];
      i := i + 1;
    }
  }

  /** A '<' at `open` hands the rest of the message to the tag name. */
  lemma TagStart(message: string, open: nat, working: string)
    requires open < |message| && message[open] == '<'
    ensures TagName(message[open + 1..]).Failure? ==>
              Scan(message[open..], working) == Failure(TagName(message[open + 1..]).error)
    ensures TagName(message[open + 1..]).Success? ==>
              Scan(message[open..], working)
              == ScanTagged(TagName(message[open + 1..]).value.0, TagName(message[open + 1..]).value.1, working)
  {
    assert message[open..][0] == '<' && message[open..][1..] == message[open + 1..];
  }

  /** One coloured phrase, from its '<' at `open` to the end of its closing tag. */
  lemma TagStep(message: string, open: nat, from: nat, closer: nat, next: nat, name: string, working: string)
    requires open < from <= closer <= |message| && message[open] == '<'
    requires TagName(message[open + 1..]) == Success((name, message[from..]))
    requires name in ColorMap && IndexOf(message, Closer(name), from) == closer
    requires next == closer + 2 + |name|
    ensures open < next < |message|
    ensures Scan(message[open..], working)
            == Prepend([ColorString(None, working), ColorString(Some(ColorMap[name]), message[from..closer])],
                 Scan(message[next + 1..], []))
  {
    TagStart(message, open, working);
    PhraseStep(message, from, closer, ColorMap[name], name, working);
  }

  /** A supported tag at `from` whose first closing tag is at `closer`. */
  lemma PhraseStep(message: string, from: nat, closer: nat, color: Color, name: string, working: string)
    requires from <= closer <= |message| && name in ColorMap && color == ColorMap[name]
    requires IndexOf(message, Closer(name), from) == closer
    ensures closer + |Closer(name)| <= |message|
    ensures ScanTagged(name, message[from..], working)
            == Prepend([ColorString(None, working), ColorString(Some(color), message[from..closer])],
                 Scan(message[closer + |Closer(name)|..], []))
  {
    var after := message[from..];
    var c := closer - from;
    assert Find(after, Closer(name)) == Some(c);
    assert after[..c] == message[from..closer];
    assert after[c + |Closer(name)|..] == message[closer + |Closer(name)|..];
    TaggedAt(color, name, after, working, c);
  }

  // ---------------------------------------------------------------------------
  // What the markup means

  /** One opening tag, read from its '<'. */
  lemma ScanOpenTag(name: string, after: string, working: string)
    requires '>' !in name
    ensures Scan("<" + (name + ">" + after), working) == ScanTagged(name, after, working)
  {
    var s := "<" + (name + ">" + after);
    assert s[0] == '<' && s[1..] == name + ">" + after;
    TagNameSplit(name, after);
  }

  /** Text without '<' is carried along into the pending uncoloured text. */
  lemma {:induction false} PlainPrefix(p: string, rest: string, working: string)
    requires '<' !in p
    ensures Scan(p + rest, working) == Scan(rest, working + p)
    decreases |p|
  {
    if p == [] {
      assert p + rest == rest && working + p == working;
    } else {
      assert p[0] in p;
      assert (p + rest)[0] == p[0] && (p + rest)[1..] == p[1..] + rest;
      PlainPrefix(p[1..], rest, working + [p[0]]);
      assert working + [p[0]] + p[1..] == working + p;
    }
  }

  /** A message without '<' is one uncoloured segment, or none when it is empty. */
  lemma PlainMessage(message: string)
    requires '<' !in message
    ensures Markup(message) == Success(if message == [] then [] else [ColorString(None, message)])
  {
    PlainPrefix(message, [], []);
    assert message + [] == message && [] + message == message;
  }

  /** The text before a tag becomes a segment of its own, even when it is empty. */
  lemma TagFlushesPending(p: string, rest: string)
    requires '<' !in p
    requires Markup(p + "<" + rest).Success?
    ensures |Markup(p + "<" + rest).value| >= 1
    ensures Markup(p + "<" + rest).value[0] == ColorString(None, p)
  {
    var t := "<" + rest;
    assert p + "<" + rest == p + t && [] + p == p;
    PlainPrefix(p, t, []);
    assert t[0] == '<' && t[1..] == rest;
    var tag := TagName(rest).value;
    assert Scan(t, p) == ScanTagged(tag.0, tag.1, p);
    TaggedFlushes(tag.0, tag.1, p);
  }

  lemma TaggedFlushes(name: string, after: string, working: string)
    requires ScanTagged(name, after, working).Success?
    ensures |ScanTagged(name, after, working).value| >= 1
    ensures ScanTagged(name, after, working).value[0] == ColorString(None, working)
  {
    var c := Find(after, Closer(name)).value;
    TaggedAt(ColorMap[name], name, after, working, c);
  }

  /** A tag name outside the six supported ones fails the parse. */
  lemma UnsupportedColorFails(p: string, name: string, rest: string)
    requires '<' !in p && '>' !in name && name !in ColorMap
    ensures Markup(p + "<" + name + ">" + rest) == Failure(UnsupportedColor(name))
  {
    assert p + "<" + name + ">" + rest == p + ("<" + (name + ">" + rest));
    PlainPrefix(p, "<" + (name + ">" + rest), []);
    assert [] + p == p;
    ScanOpenTag(name, rest, p);
  }

  /** A supported opening tag with no closing tag after it fails the parse. */
  lemma NoClosingTagFails(p: string, name: string, rest: string)
    requires '<' !in p && name in ColorMap && !Contains(rest, Closer(name))
    ensures Markup(p + "<" + name + ">" + rest) == Failure(NoClosingTag(name))
  {
    FindFirst(rest, Closer(name));
    assert p + "<" + name + ">" + rest == p + ("<" + (name + ">" + rest));
    PlainPrefix(p, "<" + (name + ">" + rest), []);
    assert [] + p == p;
    TagNamesPlain(name);
    ScanOpenTag(name, rest, p);
  }

  /** A '<' with no '>' after it fails: at the very end with the index error, otherwise the format error. */
  lemma UnterminatedTagFails(p: string, rest: string)
    requires '<' !in p && '>' !in rest
    ensures Markup(p + "<" + rest) == Failure(if rest == [] then IndexOutOfRange else InvalidFormat)
  {
    assert p + "<" + rest == p + ("<" + rest) && [] + p == p;
    PlainPrefix(p, "<" + rest, []);
    assert ("<" + rest)[0] == '<' && ("<" + rest)[1..] == rest;
    TagNameFails(rest);
  }

  /**
   * A coloured segment holds exactly the text between the opening tag and the
   * first closing tag for the same colour, and the parse resumes just after
   * that closing tag.
   */
  lemma ColoredSegment(p: string, name: string, phrase: string, rest: string)
    requires '<' !in p && name in ColorMap
    requires Find(phrase + Closer(name) + rest, Closer(name)) == Some(|phrase|)
    ensures Markup(p + "<" + name + ">" + phrase + Closer(name) + rest)
            == Prepend([ColorString(None, p), ColorString(Some(ColorMap[name]), phrase)], Markup(rest))
  {
    var t := "<" + (name + ">" + (phrase + Closer(name) + rest));
    ColoredShape(p, name, phrase, rest);
    PlainPrefix(p, t, []);
    assert [] + p == p;
    ScanColored(name, phrase, rest, p);
  }

  lemma ColoredShape(p: string, name: string, phrase: string, rest: string)
    ensures p + "<" + name + ">" + phrase + Closer(name) + rest
            == p + ("<" + (name + ">" + (phrase + Closer(name) + rest)))
  {
  }

  /** A whole coloured phrase, read from its '<'. */
  lemma ScanColored(name: string, phrase: string, rest: string, working: string)
    requires name in ColorMap
    requires Find(phrase + Closer(name) + rest, Closer(name)) == Some(|phrase|)
    ensures Scan("<" + (name + ">" + (phrase + Closer(name) + rest)), working)
            == Prepend([ColorString(None, working), ColorString(Some(ColorMap[name]), phrase)], Scan(rest, []))
  {
    var after := phrase + Closer(name) + rest;
    calc {
      Scan("<" + (name + ">" + after), working);
      { TagNamesPlain(name); ScanOpenTag(name, after, working); }
      ScanTagged(name, after, working);
      ScanPhrase(ColorMap[name], name, after, working);
      { assert after[..|phrase|] == phrase && after[|phrase| + |Closer(name)|..] == rest;
        TaggedPhrase(ColorMap[name], name, after, phrase, rest, working); }
      Prepend([ColorString(None, working), ColorString(Some(ColorMap[name]), phrase)], Scan(rest, []));
    }
  }

  /**
   * The phrase up to the first closing tag is coloured, and the text after
   * that tag is read afresh.
   */
  lemma TaggedPhrase(color: Color, name: string, after: string, phrase: string, rest: string, working: string)
    requires |phrase| + |Closer(name)| <= |after|
    requires after[..|phrase|] == phrase && after[|phrase| + |Closer(name)|..] == rest
    requires Find(after, Closer(name)) == Some(|phrase|)
    ensures ScanPhrase(color, name, after, working)
            == Prepend([ColorString(None, working), ColorString(Some(color), phrase)], Scan(rest, []))
  {
    TaggedAt(color, name, after, working, |phrase|);
  }

  lemma TaggedAt(color: Color, name: string, after: string, working: string, c: nat)
    requires Find(after, Closer(name)) == Some(c)
    ensures ScanPhrase(color, name, after, working)
            == Prepend([ColorString(None, working), ColorString(Some(color), after[..c])],
                 Scan(after[c + |Closer(name)|..], []))
  {
  }

  /** A phrase without '<' cannot hold the start of a closing tag, so the first one follows it. */
  lemma FirstCloser(phrase: string, name: string, rest: string)
    requires '<' !in phrase
    ensures Find(phrase + Closer(name) + rest, Closer(name)) == Some(|phrase|)
  {
    var s := phrase + Closer(name) + rest;
    assert s[|phrase|..|phrase| + |Closer(name)|] == Closer(name);
    forall j: nat | j < |phrase|
      ensures !OccursAt(s, Closer(name), j)
    {
      assert s[j] == phrase[j];
    }
    FindIsFirst(s, Closer(name), |phrase|);
  }

  // ---------------------------------------------------------------------------
  // Round trip

  /** A document to be written with markup: plain text and coloured phrases. */
  datatype Piece = Plain(text: string) | Colored(color: Color, text: string)

  predicate WellFormed(doc: seq<Piece>)
  {
    forall k :: 0 <= k < |doc| ==> '<' !in doc[k].text
  }

  function Render(doc: seq<Piece>): string
  {
    if doc == [] then []
    else match doc[0]
      case Plain(t) => t + Render(doc[1..])
      case Colored(c, t) => "<" + Name(c) + ">" + t + Closer(Name(c)) + Render(doc[1..])
  }

  /** The document's text with the markup left out. */
  function Strip(doc: seq<Piece>): string
  {
    if doc == [] then [] else doc[0].text + Strip(doc[1..])
  }

  /** The coloured phrases of a document, in order. */
  function ColoredPieces(doc: seq<Piece>): seq<(Color, string)>
  {
    if doc == [] then []
    else match doc[0]
      case Plain(_) => ColoredPieces(doc[1..])
      case Colored(c, t) => [(c, t)] + ColoredPieces(doc[1..])
  }

  /** The text of a list of segments. */
  function Values(segs: seq<ColorString>): string
  {
    if segs == [] then [] else segs[0].value + Values(segs[1..])
  }

  /** The coloured segments, in order. */
  function ColoredSegments(segs: seq<ColorString>): seq<(Color, string)>
  {
    if segs == [] then []
    else if segs[0].color.Some? then [(segs[0].color.value, segs[0].value)] + ColoredSegments(segs[1..])
    else ColoredSegments(segs[1..])
  }

  lemma {:induction false} ValuesAppend(a: seq<ColorString>, b: seq<ColorString>)
    ensures Values(a + b) == Values(a) + Values(b)
    ensures ColoredSegments(a + b) == ColoredSegments(a) + ColoredSegments(b)
    decreases |a|
  {
    if a == [] {
      assert a + b == b;
    } else {
      assert (a + b)[0] == a[0] && (a + b)[1..] == a[1..] + b;
      ValuesAppend(a[1..], b);
    }
  }

  /**
   * Parsing a rendered well-formed document succeeds; the segments' text is
   * the pending text followed by the document's text, and the coloured
   * segments are the document's coloured phrases.
   */
  lemma {:induction false} ScanRender(doc: seq<Piece>, working: string)
    requires WellFormed(doc)
    ensures Scan(Render(doc), working).Success?
    ensures Values(Scan(Render(doc), working).value) == working + Strip(doc)
    ensures ColoredSegments(Scan(Render(doc), working).value) == ColoredPieces(doc)
    decreases |doc|
  {
    if doc != [] {
      assert WellFormed(doc[1..]) by {
        forall k | 0 <= k < |doc[1..]| ensures '<' !in doc[1..][k].text {
          assert doc[1..][k] == doc[k + 1];
        }
      }
      match doc[0]
      case Plain(t) =>
        ScanRender(doc[1..], working + t);
        RenderPlain(doc, working);
      case Colored(c, t) =>
        ScanRender(doc[1..], []);
        RenderColored(doc, working);
    }
  }

  /** One step of `ScanRender`: a plain piece first. */
  lemma RenderPlain(doc: seq<Piece>, working: string)
    requires doc != [] && doc[0].Plain? && WellFormed(doc)
    requires Scan(Render(doc[1..]), working + doc[0].text).Success?
    requires Values(Scan(Render(doc[1..]), working + doc[0].text).value) == working + doc[0].text + Strip(doc[1..])
    requires ColoredSegments(Scan(Render(doc[1..]), working + doc[0].text).value) == ColoredPieces(doc[1..])
    ensures Scan(Render(doc), working) == Scan(Render(doc[1..]), working + doc[0].text)
    ensures Values(Scan(Render(doc), working).value) == working + Strip(doc)
    ensures ColoredSegments(Scan(Render(doc), working).value) == ColoredPieces(doc)
  {
    var t := doc[0].text;
    assert '<' !in t by { assert doc[0] == doc[0 + 0]; }
    assert Render(doc) == t + Render(doc[1..]);
    PlainPrefix(t, Render(doc[1..]), working);
    assert working + t + Strip(doc[1..]) == working + Strip(doc);
  }

  /** One step of `ScanRender`: a coloured piece first. */
  lemma RenderColored(doc: seq<Piece>, working: string)
    requires doc != [] && doc[0].Colored? && WellFormed(doc)
    requires Scan(Render(doc[1..]), []).Success?
    requires Values(Scan(Render(doc[1..]), []).value) == Strip(doc[1..])
    requires ColoredSegments(Scan(Render(doc[1..]), []).value) == ColoredPieces(doc[1..])
    ensures Scan(Render(doc), working).Success?
    ensures Values(Scan(Render(doc), working).value) == working + Strip(doc)
    ensures ColoredSegments(Scan(Render(doc), working).value) == ColoredPieces(doc)
  {
    var c, t := doc[0].color, doc[0].text;
    var rest := Render(doc[1..]);
    var name := Name(c);
    assert '<' !in t by { assert doc[0] == doc[0 + 0]; }
    assert Render(doc) == "<" + (name + ">" + (t + Closer(name) + rest));
    FirstCloser(t, name, rest);
    ScanColored(name, t, rest, working);
    HeadValues(working, c, t, Scan(rest, []).value);
    assert [] + Strip(doc[1..]) == Strip(doc[1..]);
    assert working + t + Strip(doc[1..]) == working + Strip(doc);
  }

  lemma HeadValues(working: string, c: Color, t: string, tail: seq<ColorString>)
    ensures Values([ColorString(None, working), ColorString(Some(c), t)] + tail) == working + t + Values(tail)
    ensures ColoredSegments([ColorString(None, working), ColorString(Some(c), t)] + tail)
            == [(c, t)] + ColoredSegments(tail)
  {
    var head := [ColorString(None, working), ColorString(Some(c), t)];
    ValuesAppend(head, tail);
    assert head[1..][1..] == [];
  }

  /** Rendering a well-formed document and parsing it back gives its text and its colours back. */
  lemma RoundTrip(doc: seq<Piece>)
    requires WellFormed(doc)
    ensures Markup(Render(doc)).Success?
    ensures Values(Markup(Render(doc)).value) == Strip(doc)
    ensures ColoredSegments(Markup(Render(doc)).value) == ColoredPieces(doc)
  {
    ScanRender(doc, []);
  }
}

/** The relay's lines as texts: what the server writes for each, where it cuts it, and what the
    bot's parser and handlers make of what arrives. Lines that are legible are heard as they were
    sent, and no line is heard as one of another kind. */
module Wire {
  import opened Common
  import Utf8

  const SERVER := "microirc.local"
  const LINE_BYTES: nat := 510
  /** The character of low-level quoting. */
  const QUOTE := '\U{0010}'

  // What the server writes ------------------------------------------------------------------

  datatype Who = Who(nick: string, user: string)

  /** The lines that concern who is in which channel, and the welcome before them. */
  datatype Line =
    | Welcome(nick: string)
    | Joined(who: Who, channel: string)
    | Parted(who: Who, channel: string, reason: string)
    | HasQuit(who: Who, reason: string)
    | Renamed(who: Who, after: string)
    | Names(to: string, channel: string, nicks: seq<string>)
    | Moded(who: Who, params: seq<string>)

  function Spaced(words: seq<string>): string {
    if words == [] then ""
    else if |words| == 1 then words[0]
    else words[0] + " " + Spaced(words[1..])
  }

  function Source(line: Line): string {
    if line.Welcome? || line.Names? then SERVER else line.who.nick + "!" + line.who.user + "@" + SERVER
  }

  function Leading(line: Line): seq<string> {
    match line
    case Welcome(nick) => ["001", nick]
    case Joined(_, _) => ["JOIN"]
    case Parted(_, channel, _) => ["PART", channel]
    case HasQuit(_, _) => ["QUIT"]
    case Renamed(_, _) => ["NICK"]
    case Names(to, channel, _) => ["353", to, "=", channel]
    case Moded(_, params) => ["MODE"] + params
  }

  function Trailing(line: Line): string {
    match line
    case Welcome(nick) => " :" + ("Welcome to the micro IRC relay, " + nick)
    case Joined(_, channel) => " :" + channel
    case Parted(_, _, reason) => " :" + reason
    case HasQuit(_, reason) => " :" + reason
    case Renamed(_, after) => " :" + after
    case Names(_, _, nicks) => " :" + Spaced(nicks)
    case Moded(_, _) => ""
  }

  function Head(line: Line): string {
    ":" + Source(line) + " " + Spaced(Leading(line))
  }

  function Render(line: Line): string {
    Head(line) + Trailing(line)
  }

  /** `send_line` raises for any other text. */
  predicate Sendable(text: string) {
    forall c :: c in text ==> c !in {'\r', '\n', '\0'}
  }

  function Scalars(s: string): Utf8.Text {
    seq(|s|, i requires 0 <= i < |s| => s[i] as int)
  }

  predicate Fits(s: string) {
    Utf8.Width(Scalars(s)) <= LINE_BYTES
  }

  /** What is left of a text once its encoding is cut. */
  function OnWire(s: string): string {
    s[..Utf8.FitCount(Scalars(s), LINE_BYTES)]
  }

  /** Words with a space in front of each. */
  ghost function Spaces(words: seq<string>): string {
    if words == [] then "" else " " + words[0] + Spaces(words[1..])
  }

  /** What the server writes: where the line comes from, its words, and the last part behind a colon. */
  ghost function Written(from: string, words: seq<string>, last: Option<string>): string {
    ":" + from + Spaces(words) + if last.Some? then " :" + last.value else ""
  }

  ghost function Mask(who: Who): string {
    who.nick + "!" + who.user + "@" + "microirc.local"
  }

  /** The lines as the server writes them. */
  lemma RenderedAs(line: Line)
    ensures Render(line) ==
      match line
      case Welcome(nick) =>
        Written("microirc.local", ["001", nick], Some("Welcome to the micro IRC relay, " + nick))
      case Joined(who, channel) => Written(Mask(who), ["JOIN"], Some(channel))
      case Parted(who, channel, reason) => Written(Mask(who), ["PART", channel], Some(reason))
      case HasQuit(who, reason) => Written(Mask(who), ["QUIT"], Some(reason))
      case Renamed(who, after) => Written(Mask(who), ["NICK"], Some(after))
      case Names(to, channel, nicks) => Written("microirc.local", ["353", to, "=", channel], Some(Spaced(nicks)))
      case Moded(who, params) => Written(Mask(who), ["MODE"] + params, None)
  {
    SpacedBehind(Leading(line));
    hide Spaced, Spaces;
    var from, words := ":" + Source(line), Spaced(Leading(line));
    Regrouped(from, " ", words);
  }

  lemma {:induction false} SpacedBehind(words: seq<string>)
    requires words != []
    ensures " " + Spaced(words) == Spaces(words)
  {
    if |words| > 1 {
      SpacedBehind(words[1..]);
      Regrouped(" ", words[0], " " + Spaced(words[1..]));
      Regrouped(words[0], " ", Spaced(words[1..]));
    }
  }

  // What the bot reads ------------------------------------------------------------------------

  /** `str.isspace`. */
  predicate IsSpace(c: char) {
    || '\U{0009}' <= c <= '\U{000D}' || '\U{001C}' <= c <= '\U{0020}' || c == '\U{0085}' || c == '\U{00A0}'
    || c == '\U{1680}' || '\U{2000}' <= c <= '\U{200A}' || '\U{2028}' <= c <= '\U{2029}'
    || c == '\U{202F}' || c == '\U{205F}' || c == '\U{3000}'
  }

  /** The characters that `str.isspace` is true of. */
  lemma SpacesAre(c: char)
    ensures IsSpace(c) <==> c as int in {
      0x09, 0x0A, 0x0B, 0x0C, 0x0D, 0x1C, 0x1D, 0x1E, 0x1F, 0x20, 0x85, 0xA0, 0x1680, 0x2000, 0x2001, 0x2002, 0x2003,
      0x2004, 0x2005, 0x2006, 0x2007, 0x2008, 0x2009, 0x200A, 0x2028, 0x2029, 0x202F, 0x205F, 0x3000}
  {
  }

  /** What `str.split` takes for one word. */
  predicate Word(s: string) {
    s != "" && forall c :: c in s ==> !IsSpace(c)
  }

  function Unquoted(c: char): char {
    if c == '0' then '\0' else if c == 'n' then '\n' else if c == 'r' then '\r' else c
  }

  /** Undoes low-level quoting; a quote at the very end stays. */
  function Dequote(s: string): string {
    if s == "" then ""
    else if s[0] == QUOTE && |s| > 1 then [Unquoted(s[1])] + Dequote(s[2..])
    else [s[0]] + Dequote(s[1..])
  }

  /** Low-level quoting, as the bot does it to the lines it sends. */
  function LowQuote(s: string): string {
    if s == "" then ""
    else
      var c := s[0];
      (if c == '\0' then [QUOTE, '0'] else if c == '\n' then [QUOTE, 'n'] else if c == '\r' then [QUOTE, 'r']
       else if c == QUOTE then [QUOTE, QUOTE] else [c]) + LowQuote(s[1..])
  }

  /** Dequoting undoes quoting, and a quoted text has no CR, LF or NUL. */
  lemma {:induction false} QuoteUndone(s: string)
    ensures Dequote(LowQuote(s)) == s
    ensures Sendable(LowQuote(s))
  {
    if s != "" {
      QuoteUndone(s[1..]);
      var rest, all := LowQuote(s[1..]), LowQuote(s);
      if s[0] in {'\0', '\n', '\r', QUOTE} {
        assert all[2..] == rest && all[0] == QUOTE;
      } else {
        assert all[1..] == rest && all[0] == s[0];
      }
      assert s == [s[0]] + s[1..];
    }
  }

  /** The first place of a character, or the length. */
  function Find(s: string, c: char): (k: nat)
    ensures k <= |s| && (k < |s| ==> s[k] == c)
  {
    if s == "" || s[0] == c then 0 else 1 + Find(s[1..], c)
  }

  /** The first place of a space with a colon behind it, or the length. */
  function Colon(s: string): (k: nat)
    ensures k <= |s| && (k < |s| ==> k + 1 < |s|)
  {
    if s == "" || (|s| > 1 && s[0] == ' ' && s[1] == ':') then 0 else 1 + Colon(s[1..])
  }

  /** How many characters come before the first white space. */
  function WordEnd(s: string): (k: nat)
    ensures k <= |s|
  {
    if s == "" || IsSpace(s[0]) then 0 else 1 + WordEnd(s[1..])
  }

  function Words(s: string): seq<string>
    decreases |s|
  {
    if s == "" then []
    else if IsSpace(s[0]) then Words(s[1..])
    else [s[..WordEnd(s)]] + Words(s[WordEnd(s)..])
  }

  datatype Message = Message(prefix: string, command: string, params: seq<string>)

  function Arguments(prefix: string, s: string): Option<Message> {
    var k := Colon(s);
    var args := if k < |s| then Words(s[..k]) + [s[k + 2..]] else Words(s);
    if args == [] then None else Some(Message(prefix, args[0], args[1..]))
  }

  /** Every line of this server starts with a prefix; None is a text that does not parse. */
  function Parse(s: string): Option<Message> {
    if s == "" then None
    else if s[0] != ':' then Arguments("", s)
    else
      var k := Find(s, ' ');
      if k == |s| then None else Arguments(s[1..k], s[k + 1..])
  }

  /** The nick of a hostmask. */
  function NickIn(mask: string): Option<string> {
    var k := Find(mask, '!');
    if k == |mask| || '@' !in mask[k + 1..] then None else Some(mask[..k])
  }

  /** What a handler passes on to the tracked network. */
  datatype Event =
    | Ignored
    | SignedOn(nick: string)
    | UserJoined(nick: string, channel: string)
    | UserLeft(nick: string, channel: string)
    | UserQuit(nick: string)
    | UserRenamed(nick: string, newname: string)
    | NamesShown(channel: string, raws: seq<string>)
    | ModeChanged(channel: string, args: seq<string>)

  function React(m: Message): Event {
    var nick := NickIn(m.prefix);
    if m.command == "JOIN" then
      if nick.Some? && m.params != [] then UserJoined(nick.value, m.params[0]) else Ignored
    else if m.command == "PART" then
      if nick.Some? && m.params != [] then UserLeft(nick.value, m.params[0]) else Ignored
    else if m.command == "QUIT" then
      if nick.Some? then UserQuit(nick.value) else Ignored
    else if m.command == "NICK" then
      if nick.Some? && m.params != [] then UserRenamed(nick.value, m.params[0]) else Ignored
    else if m.command == "353" then
      if |m.params| >= 4 then NamesShown(m.params[2], Words(m.params[3])) else Ignored
    else if m.command == "MODE" then
      if |m.params| >= 2 then ModeChanged(m.params[0], m.params[1..]) else Ignored
    else Ignored
  }

  function Understand(s: string): Event {
    var m := Parse(s);
    if m.None? then Ignored else React(m.value)
  }

  /** What the bot makes of a line. Of the welcome it takes the nick that it had asked for, which
      the server holds as the bot quoted it. */
  function Hear(line: Line): Event {
    if !Sendable(Render(line)) then Ignored
    else if line.Welcome? then SignedOn(Dequote(line.nick))
    else Understand(Dequote(OnWire(Render(line))))
  }

  // Cutting and quoting -------------------------------------------------------------------------

  /** The bytes that go out decode to the cut text: whole characters, and as many as fit. */
  lemma Received(s: string)
    ensures
      var bytes := Utf8.Encode(Scalars(s));
      var sent := if |bytes| > LINE_BYTES then Utf8.Encode(Utf8.DecodeIgnore(bytes[..LINE_BYTES])) else bytes;
      |sent| <= LINE_BYTES && Utf8.Decode(sent) == Some(Scalars(OnWire(s)))
    ensures forall j :: |OnWire(s)| < j <= |s| ==> !Fits(s[..j])
  {
    hide *;
    var t := Scalars(s);
    Utf8.DecodeIgnoreCut(t, LINE_BYTES);
    Utf8.FitPrefixLongest(t, LINE_BYTES);
    Utf8.FitAll(t, LINE_BYTES);
    Utf8.EncodeWidth(t);
    CutScalars(s);
    Utf8.EncodeWidth(Utf8.FitPrefix(t, LINE_BYTES));
    Utf8.DecodeEncode(Utf8.FitPrefix(t, LINE_BYTES));
  }

  lemma CutScalars(s: string)
    ensures |Scalars(s)| == |s|
    ensures Scalars(OnWire(s)) == Utf8.FitPrefix(Scalars(s), LINE_BYTES)
    ensures |OnWire(s)| == Utf8.FitCount(Scalars(s), LINE_BYTES)
    ensures forall j :: 0 <= j <= |s| ==> Scalars(s[..j]) == Scalars(s)[..j]
    ensures forall j :: 0 <= j <= |s| ==> (Fits(s[..j]) <==> Utf8.Width(Scalars(s)[..j]) <= LINE_BYTES)
    ensures Fits(s) <==> Utf8.Width(Scalars(s)) <= LINE_BYTES
    ensures Utf8.Width([]) == 0
  {
    forall j | 0 <= j <= |s| ensures Scalars(s[..j]) == Scalars(s)[..j] {}
  }

  /** How much of the end of a text goes out, if its beginning does. */
  lemma CutBehind(head: string, tail: string) returns (m: nat)
    requires Fits(head)
    ensures m <= |tail| && OnWire(head + tail) == head + tail[..m]
    ensures Fits(head + tail) ==> m == |tail|
  {
    var s := head + tail;
    CutScalars(s);
    assert s[..|head|] == head && s[..|s|] == s;
    hide *;
    Utf8.FitPrefixLongest(Scalars(s), LINE_BYTES);
    m := Utf8.FitCount(Scalars(s), LINE_BYTES) - |head|;
    assert OnWire(s) == s[..|head| + m] by {
      PrefixOf(s);
    }
    assert s[..|head| + m] == head + tail[..m];
  }

  lemma PrefixOf(s: string)
    ensures OnWire(s) == s[..Utf8.FitCount(Scalars(s), LINE_BYTES)]
  {
  }

  lemma {:induction false} DequoteConcat(a: string, b: string)
    requires a == "" || a[|a| - 1] != QUOTE
    ensures Dequote(a + b) == Dequote(a) + Dequote(b)
  {
    if a == "" {
      assert a + b == b;
    } else {
      DequoteFirst(a);
      DequoteFirst(a + b);
      hide *;
      var k := if a[0] == QUOTE then 2 else 1;
      DropConcat(a, b, k);
      DequoteConcat(a[k..], b);
      Regrouped([if a[0] == QUOTE then Unquoted(a[1]) else a[0]], Dequote(a[k..]), Dequote(b));
    }
  }

  lemma DropConcat(a: string, b: string, k: nat)
    requires k <= |a|
    ensures (a + b)[k..] == a[k..] + b
    ensures forall i :: 0 <= i < |a| ==> (a + b)[i] == a[i]
  {
  }

  lemma Regrouped(a: string, b: string, c: string)
    ensures a + b + c == a + (b + c)
  {
  }

  lemma DequoteFirst(s: string)
    requires s != ""
    ensures Dequote(s) ==
      if s[0] == QUOTE && |s| > 1 then [Unquoted(s[1])] + Dequote(s[2..]) else [s[0]] + Dequote(s[1..])
  {
    hide Unquoted;
  }

  lemma {:induction false} DequotePlain(s: string)
    requires QUOTE !in s
    ensures Dequote(s) == s
  {
    if s != "" {
      DequotePlain(s[1..]);
    }
  }

  lemma {:induction false} DequoteSpaces(s: string)
    requires ' ' !in s
    ensures ' ' !in Dequote(s)
  {
    if s != "" {
      if s[0] == QUOTE && |s| > 1 {
        DequoteSpaces(s[2..]);
      } else {
        DequoteSpaces(s[1..]);
      }
    }
  }

  lemma FitsByLength(s: string)
    ensures 4 * |s| <= LINE_BYTES ==> Fits(s)
    ensures |s| > LINE_BYTES ==> !Fits(s)
  {
    WidthAtMost(Scalars(s));
    Utf8.EncodeWidth(Scalars(s));
  }

  lemma {:induction false} WidthAtMost(t: Utf8.Text)
    ensures Utf8.Width(t) <= 4 * |t|
  {
    if t != [] {
      WidthAtMost(t[1..]);
    }
  }

  // Parsing ---------------------------------------------------------------------------------------

  lemma {:induction false} FindAfter(a: string, b: string, c: char)
    requires c !in a
    ensures Find(a + b, c) == |a| + Find(b, c)
  {
    if a == "" {
      assert a + b == b;
    } else {
      assert (a + b)[1..] == a[1..] + b;
      FindAfter(a[1..], b, c);
    }
  }

  predicate NoColon(s: string) {
    forall i :: 0 <= i < |s| - 1 && s[i] == ' ' ==> s[i + 1] != ':'
  }

  lemma {:induction false} ColonAfter(a: string, b: string)
    requires NoColon(a) && (a == "" || a[|a| - 1] != ' ' || b == "" || b[0] != ':')
    ensures Colon(a + b) == |a| + Colon(b)
  {
    if a == "" {
      assert a + b == b;
    } else {
      assert (a + b)[1..] == a[1..] + b;
      ColonAfter(a[1..], b);
    }
  }

  lemma {:induction false} WordEndAfter(w: string, rest: string)
    requires forall c :: c in w ==> !IsSpace(c)
    requires rest == "" || IsSpace(rest[0])
    ensures WordEnd(w + rest) == |w|
  {
    if w == "" {
      assert w + rest == rest;
    } else {
      assert (w + rest)[1..] == w[1..] + rest;
      WordEndAfter(w[1..], rest);
    }
  }

  lemma WordsFirst(w: string, rest: string)
    requires Word(w) && (rest == "" || IsSpace(rest[0]))
    ensures Words(w + rest) == [w] + Words(rest)
  {
    WordEndAfter(w, rest);
    assert (w + rest)[..|w|] == w && (w + rest)[|w|..] == rest;
    assert (w + rest)[0] == w[0];
    hide IsSpace;
  }

  /** Words joined by spaces come apart as they were, with or without a space behind. */
  lemma {:induction false} WordsOfSpaced(words: seq<string>, end: string)
    requires forall w :: w in words ==> Word(w)
    requires end == "" || end == " "
    ensures Words(Spaced(words) + end) == words
  {
    SpacedFew(words);
    hide *;
    if words == [] {
      NoWords(end);
      assert "" + end == end;
    } else if |words| == 1 {
      OneWord(words[0], end);
    } else {
      WordsOfSpaced(words[1..], end);
      OneMoreWord(words[0], Spaced(words[1..]), end);
    }
  }

  lemma SpacedFew(words: seq<string>)
    ensures words == [] ==> Spaced(words) == ""
    ensures |words| == 1 ==> Spaced(words) == words[0] && words == [words[0]]
    ensures |words| > 1 ==> Spaced(words) == words[0] + (" " + Spaced(words[1..])) && words == [words[0]] + words[1..]
  {
    if |words| > 1 {
      SpacedFirst(words, " " + Spaced(words[1..]));
    }
    hide Spaced;
  }

  lemma OneWord(w: string, end: string)
    requires Word(w) && (end == "" || end == " ")
    ensures Words(w + end) == [w]
  {
    NoWords(end);
    WordsFirstSpace(w, end);
  }

  lemma OneMoreWord(w: string, rest: string, end: string)
    requires Word(w)
    ensures Words(w + (" " + rest) + end) == [w] + Words(rest + end)
  {
    hide *;
    Regrouped(w, " " + rest, end);
    Regrouped(" ", rest, end);
    WordsFirstSpace(w, " " + (rest + end));
    WordsBehindSpace(rest + end);
  }

  lemma NoWords(end: string)
    requires end == "" || end == " "
    ensures Words(end) == []
  {
    assert end == " " ==> end[1..] == "";
  }

  lemma WordsFirstSpace(w: string, rest: string)
    requires Word(w) && (rest == "" || rest[0] == ' ')
    ensures Words(w + rest) == [w] + Words(rest)
  {
    WordsFirst(w, rest);
  }

  lemma WordsBehindSpace(s: string)
    ensures Words(" " + s) == Words(s)
  {
    assert (" " + s)[1..] == s;
  }

  lemma WordLetters(w: string)
    requires Word(w)
    ensures forall i :: 0 <= i < |w| ==> w[i] != ' '
  {
    forall i | 0 <= i < |w| ensures w[i] != ' ' {
      assert w[i] in w;
    }
  }

  lemma {:induction false} SpacedNoColon(words: seq<string>)
    requires forall w :: w in words ==> Word(w) && w[0] != ':'
    ensures NoColon(Spaced(words))
    ensures words != [] ==> Spaced(words) != "" && Spaced(words)[0] != ':' && Spaced(words)[|Spaced(words)| - 1] != ' '
  {
    if words != [] {
      assert words[0] in words;
      WordLetters(words[0]);
    }
    if |words| > 1 {
      SpacedNoColon(words[1..]);
      assert Spaced(words) == words[0] + " " + Spaced(words[1..]);
    }
  }

  // Lines that are heard as they were sent --------------------------------------------------------

  predicate Plain(w: string) {
    Word(w) && w[0] != ':' && QUOTE !in w
  }

  lemma QuoteInSpaced(words: seq<string>, c: char)
    requires c != ' ' && forall w :: w in words ==> c !in w
    ensures c !in Spaced(words)
  {
  }

  /** The prefix is what comes before the first space. */
  lemma ParsePrefix(src: string, rest: string)
    requires ' ' !in src
    ensures Parse(":" + src + " " + rest) == Arguments(src, rest)
  {
    var s := ":" + src + " " + rest;
    assert s == (":" + src) + (" " + rest);
    FindAfter(":" + src, " " + rest, ' ');
    hide Find, Arguments;
    assert s[1..1 + |src|] == src && s[1 + |src| + 1..] == rest;
    assert Find(" " + rest, ' ') == 0 by {
      FindNow(" " + rest, ' ');
    }
  }

  lemma FindNow(s: string, c: char)
    requires s != "" && s[0] == c
    ensures Find(s, c) == 0
  {
  }

  /** Plain words, then nothing, a space, or a last parameter of any kind. */
  lemma ArgumentsOf(prefix: string, leading: seq<string>, u: string)
    requires leading != [] && forall w :: w in leading ==> Plain(w)
    requires u == "" || u == " " || (|u| > 1 && u[0] == ' ' && u[1] == ':')
    ensures Arguments(prefix, Spaced(leading) + u) ==
      Some(Message(prefix, leading[0], leading[1..] + if |u| > 1 then [u[2..]] else []))
  {
    assert forall w :: w in leading ==> Word(w) && w[0] != ':';
    SpacedNoColon(leading);
    ColonEnds(u);
    hide *;
    ColonAfter(Spaced(leading), u);
    if |u| > 1 {
      WordsOfSpaced(leading, "");
      WithLast(prefix, leading, u);
    } else {
      WordsOfSpaced(leading, u);
      ArgumentsSplit(prefix, Spaced(leading) + u, |Spaced(leading) + u|, leading);
      assert leading[1..] + [] == leading[1..];
    }
  }

  lemma WithLast(prefix: string, leading: seq<string>, u: string)
    requires leading != [] && |u| > 1 && Colon(Spaced(leading) + u) == |Spaced(leading)|
    requires Words(Spaced(leading) + "") == leading
    ensures Arguments(prefix, Spaced(leading) + u) == Some(Message(prefix, leading[0], leading[1..] + [u[2..]]))
  {
    hide Words, Spaced, Colon;
    var head := Spaced(leading);
    var s := head + u;
    assert s[..|head|] == head + "" && s[|head| + 2..] == u[2..];
    ArgumentsSplit(prefix, s, |head|, leading + [u[2..]]);
    assert (leading + [u[2..]])[1..] == leading[1..] + [u[2..]];
  }

  lemma ColonEnds(u: string)
    ensures |u| > 1 && u[0] == ' ' && u[1] == ':' ==> Colon(u) == 0
    ensures |u| <= 1 ==> Colon(u) == |u|
  {
  }

  lemma ArgumentsSplit(prefix: string, s: string, k: nat, args: seq<string>)
    requires k == Colon(s) && args != []
    requires args == if k < |s| then Words(s[..k]) + [s[k + 2..]] else Words(s)
    ensures Arguments(prefix, s) == Some(Message(prefix, args[0], args[1..]))
  {
    hide Words, Colon;
  }

  /** A head without a quote in it is read as it stands, whatever is left of the end. */
  lemma HeadHeard(line: Line, t: string)
    requires ' ' !in Source(line) && QUOTE !in Source(line)
    requires forall w :: w in Leading(line) ==> Plain(w)
    requires t == "" || t == " " || (|t| > 1 && t[0] == ' ' && t[1] == ':')
    ensures Understand(Dequote(Head(line) + t)) ==
      React(Message(Source(line), Leading(line)[0], Leading(line)[1..] + if |t| > 1 then [Dequote(t[2..])] else []))
  {
    HeadClean(line);
    DequoteEnd(t);
    hide *;
    DequotePlain(Head(line));
    LastNot(Head(line), QUOTE);
    DequoteConcat(Head(line), t);
    HeadUnderstood(line, Dequote(t));
  }

  lemma HeadUnderstood(line: Line, u: string)
    requires ' ' !in Source(line)
    requires Leading(line) != [] && forall w :: w in Leading(line) ==> Plain(w)
    requires u == "" || u == " " || (|u| > 1 && u[0] == ' ' && u[1] == ':')
    ensures Understand(Head(line) + u) ==
      React(Message(Source(line), Leading(line)[0], Leading(line)[1..] + if |u| > 1 then [u[2..]] else []))
  {
    hide *;
    HeadIs(line);
    Regrouped(":" + Source(line) + " ", Spaced(Leading(line)), u);
    ParsePrefix(Source(line), Spaced(Leading(line)) + u);
    ArgumentsOf(Source(line), Leading(line), u);
    UnderstandIs(Head(line) + u);
  }

  lemma HeadClean(line: Line)
    requires QUOTE !in Source(line)
    requires forall w :: w in Leading(line) ==> Plain(w)
    ensures QUOTE !in Head(line) && Leading(line) != []
  {
    forall w | w in Leading(line) ensures QUOTE !in w {}
    QuoteInSpaced(Leading(line), QUOTE);
    hide Spaced, Source, Plain, Word;
  }

  lemma HeadIs(line: Line)
    ensures Head(line) == ":" + Source(line) + " " + Spaced(Leading(line))
  {
  }

  lemma UnderstandIs(s: string)
    requires Parse(s).Some?
    ensures Understand(s) == React(Parse(s).value)
  {
  }

  lemma LastNot(s: string, c: char)
    requires c !in s
    ensures s == "" || s[|s| - 1] != c
  {
  }

  lemma DequoteEnd(t: string)
    requires t == "" || t == " " || (|t| > 1 && t[0] == ' ' && t[1] == ':')
    ensures if |t| > 1 then Dequote(t) == " :" + Dequote(t[2..]) else Dequote(t) == t
  {
    if |t| > 1 {
      SpaceColon(t[2..]);
      SpaceColon(Dequote(t[2..]));
      assert t == " :" + t[2..];
      hide *;
      DequoteSpace(":" + t[2..]);
      DequoteColon(t[2..]);
    } else {
      DequotePlain(t);
    }
  }

  lemma SpaceColon(s: string)
    ensures " :" + s == " " + (":" + s)
  {
  }

  lemma MaskNick(line: Line)
    requires !line.Welcome? && !line.Names? && '!' !in line.who.nick
    ensures NickIn(Source(line)) == Some(line.who.nick)
  {
    var nick, behind := line.who.nick, "!" + line.who.user + "@" + SERVER;
    assert Source(line) == nick + behind;
    FindAfter(nick, behind, '!');
    assert Find(behind, '!') == 0;
    hide Find;
    var rest := Source(line)[|nick| + 1..];
    assert rest[|line.who.user|] == '@';
  }

  /** What the server says with a line, to the tracker. */
  function Said(line: Line): Event {
    match line
    case Welcome(nick) => SignedOn(nick)
    case Joined(who, channel) => UserJoined(who.nick, channel)
    case Parted(who, channel, _) => UserLeft(who.nick, channel)
    case HasQuit(who, _) => UserQuit(who.nick)
    case Renamed(who, after) => UserRenamed(who.nick, after)
    case Names(_, channel, nicks) => NamesShown(channel, nicks)
    case Moded(_, _) => Ignored
  }

  predicate PlainSource(line: Line) {
    line.Welcome? || line.Names? ||
    (Plain(line.who.nick) && '!' !in line.who.nick && Word(line.who.user) && QUOTE !in line.who.user)
  }

  /** No quoting character where it matters, and what matters is not cut off: of a PART, QUIT or
      MODE line the end may be. */
  predicate Legible(line: Line) {
    && Sendable(Render(line)) && PlainSource(line)
    && match line
       case Welcome(nick) => QUOTE !in nick
       case Joined(_, channel) => QUOTE !in channel && Fits(Render(line))
       case Parted(_, channel, _) => Plain(channel) && Fits(Head(line))
       case HasQuit(_, _) => Fits(Head(line))
       case Renamed(_, after) => QUOTE !in after && Fits(Render(line))
       case Names(to, channel, nicks) =>
         Plain(to) && Plain(channel) && (forall n :: n in nicks ==> Plain(n)) && Fits(Render(line))
       case Moded(_, _) => true
  }

  lemma WordHasNoSpace(w: string)
    requires Word(w)
    ensures ' ' !in w
  {
  }

  lemma SourceClean(line: Line)
    requires PlainSource(line)
    ensures ' ' !in Source(line) && QUOTE !in Source(line)
  {
    if !line.Welcome? && !line.Names? {
      WordHasNoSpace(line.who.nick);
      WordHasNoSpace(line.who.user);
    }
    hide Word;
  }

  lemma LiteralsPlain()
    ensures Plain("JOIN") && Plain("PART") && Plain("QUIT") && Plain("NICK") && Plain("353") && Plain("=")
  {
    PlainLetters("JOIN");
    PlainLetters("PART");
    PlainLetters("QUIT");
    PlainLetters("NICK");
    PlainLetters("353");
    PlainLetters("=");
  }

  lemma PlainLetters(w: string)
    requires w != "" && w[0] != ':' && forall c :: c in w ==> '0' <= c <= 'Z'
    ensures Plain(w) && ' ' !in w
  {
  }

  lemma LeadingPlain(line: Line)
    requires Legible(line) && !line.Welcome? && !line.Moded?
    ensures forall w :: w in Leading(line) ==> Plain(w)
  {
    LiteralsPlain();
    hide Plain;
  }

  /** How much of a legible line arrives. */
  lemma LegibleArrives(line: Line) returns (t: string)
    requires Legible(line) && !line.Welcome? && !line.Moded?
    ensures OnWire(Render(line)) == Head(line) + t && t <= Trailing(line)
    ensures line.Parted? || line.HasQuit? || t == Trailing(line)
    ensures t == "" || t == " " || (|t| > 1 && t[0] == ' ' && t[1] == ':')
  {
    assert Fits(Head(line)) by {
      if !line.Parted? && !line.HasQuit? {
        FitsBefore(Head(line), Trailing(line));
      }
    }
    assert |Trailing(line)| > 1 && Trailing(line)[0] == ' ' && Trailing(line)[1] == ':';
    var m := CutBehind(Head(line), Trailing(line));
    t := Trailing(line)[..m];
    hide Spaced, OnWire;
  }

  lemma FitsBefore(a: string, b: string)
    requires Fits(a + b)
    ensures Fits(a)
  {
    assert Scalars(a + b) == Scalars(a) + Scalars(b);
    Utf8.EncodeConcat(Scalars(a), Scalars(b));
  }

  /** A legible line is heard as it was sent. */
  lemma LegibleHeard(line: Line)
    requires Legible(line)
    ensures if line.Moded? then Hear(line).ModeChanged? || Hear(line).Ignored? else Hear(line) == Said(line)
  {
    if line.Welcome? {
      DequotePlain(line.nick);
    } else if line.Moded? {
      SourceClean(line);
      KindKept(line);
    } else {
      SourceClean(line);
      LeadingPlain(line);
      assert Sendable(Render(line));
      hide *;
      var t := LegibleArrives(line);
      HeadHeard(line, t);
      ReactsAsSaid(line, t);
      HearIs(line);
    }
  }

  lemma HearIs(line: Line)
    requires !line.Welcome? && Sendable(Render(line))
    ensures Hear(line) == Understand(Dequote(OnWire(Render(line))))
  {
  }

  lemma ReactTo(prefix: string, params: seq<string>)
    ensures
      var nick := NickIn(prefix);
      && (nick.Some? && params != [] ==>
            && React(Message(prefix, "JOIN", params)) == UserJoined(nick.value, params[0])
            && React(Message(prefix, "PART", params)) == UserLeft(nick.value, params[0])
            && React(Message(prefix, "NICK", params)) == UserRenamed(nick.value, params[0]))
      && (nick.Some? ==> React(Message(prefix, "QUIT", params)) == UserQuit(nick.value))
      && (|params| == 4 ==> React(Message(prefix, "353", params)) == NamesShown(params[2], Words(params[3])))
  {
    hide NickIn, Words;
  }

  lemma ReactsAsSaid(line: Line, t: string)
    requires Legible(line) && !line.Welcome? && !line.Moded?
    requires t == Trailing(line) || line.Parted? || line.HasQuit?
    ensures
      var params := Leading(line)[1..] + if |t| > 1 then [Dequote(t[2..])] else [];
      React(Message(Source(line), Leading(line)[0], params)) == Said(line)
  {
    LastParameter(line);
    if !line.Names? {
      PlainNick(line);
      MaskNick(line);
    }
    ReactTo(Source(line), Leading(line)[1..] + if |t| > 1 then [Dequote(t[2..])] else []);
    assert |Trailing(line)| > 1;
    hide Legible, Dequote, Spaced, NickIn, Words, Source, React, Trailing;
    match line {
      case Parted(_, channel, _) => assert Leading(line)[1..] == [channel];
      case Names(to, channel, nicks) => assert Leading(line)[1..] == [to, "=", channel];
      case Joined(_, _) => assert Leading(line)[1..] == [];
      case HasQuit(_, _) => assert Leading(line)[1..] == [];
      case Renamed(_, _) => assert Leading(line)[1..] == [];
      case _ =>
    }
  }

  lemma PlainNick(line: Line)
    requires Legible(line) && !line.Welcome? && !line.Names?
    ensures '!' !in line.who.nick
  {
  }

  lemma LastParameter(line: Line)
    requires Legible(line)
    ensures line.Joined? ==> Trailing(line)[2..] == line.channel && Dequote(line.channel) == line.channel
    ensures line.Renamed? ==> Trailing(line)[2..] == line.after && Dequote(line.after) == line.after
    ensures line.Names? ==>
      Trailing(line)[2..] == Spaced(line.nicks) && Words(Dequote(Spaced(line.nicks))) == line.nicks
  {
    match line
    case Joined(_, channel) => DequotePlain(channel);
    case Renamed(_, after) => DequotePlain(after);
    case Names(_, _, nicks) =>
      forall n | n in nicks ensures Word(n) && QUOTE !in n {}
      QuoteInSpaced(nicks, QUOTE);
      DequotePlain(Spaced(nicks));
      WordsOfSpaced(nicks, "");
      assert Spaced(nicks) + "" == Spaced(nicks);
    case _ =>
  }

  // Lines of any length and content -----------------------------------------------------------------

  function Kind(line: Line): string {
    Leading(line)[0]
  }

  /** A line is its prefix, its command, and more. */
  lemma RenderParts(line: Line) returns (more: string)
    ensures Render(line) == (":" + Source(line)) + (" " + (Kind(line) + more))
    ensures more == "" || more[0] == ' '
  {
    var rest := if |Leading(line)| == 1 then "" else " " + Spaced(Leading(line)[1..]);
    assert Leading(line) != [] && (Trailing(line) == "" || Trailing(line)[0] == ' ');
    SpacedFirst(Leading(line), rest);
    HeadIs(line);
    RenderIs(line);
    KindIs(line);
    hide *;
    more := rest + Trailing(line);
    FiveParts(":" + Source(line), Kind(line), rest, Trailing(line));
  }

  lemma FiveParts(a: string, b: string, c: string, d: string)
    ensures a + " " + (b + c) + d == a + (" " + (b + (c + d)))
  {
  }

  lemma SpacedFirst(words: seq<string>, rest: string)
    requires words != [] && rest == if |words| == 1 then "" else " " + Spaced(words[1..])
    ensures Spaced(words) == words[0] + rest
  {
  }

  lemma KindIs(line: Line)
    ensures Leading(line)[0] == Kind(line)
  {
  }

  lemma RenderIs(line: Line)
    ensures Render(line) == Head(line) + Trailing(line)
  {
  }

  lemma KindPlain(line: Line)
    ensures Plain(Kind(line)) && ' ' !in Kind(line)
  {
    assert forall c :: c in Kind(line) ==> '0' <= c <= 'Z';
  }

  /** The command of a text cut behind the prefix is that of the line, or shorter. */
  lemma CommandKept(prefix: string, cmd: string, more: string, n: nat)
    requires Plain(cmd) && ' ' !in cmd && (more == "" || more[0] == ' ') && n <= |cmd + more|
    ensures
      var m := Arguments(prefix, Dequote((cmd + more)[..n]));
      m.Some? ==> m.value.prefix == prefix && (m.value.command == cmd || m.value.command < cmd)
  {
    var z := (cmd + more)[..n];
    if n <= |cmd| {
      assert z == cmd[..n];
      DequotePlain(z);
      assert NoColon(z);
      ColonAfter(z, "");
      assert z + "" == z && Colon("") == 0 && Words("") == [];
      if z != "" {
        WordsFirst(z, "");
      }
      hide Words, Colon;
    } else {
      var w := more[..n - |cmd|];
      assert z == cmd + w && w[0] == ' ';
      DequotePlain(cmd);
      LastNot(cmd, QUOTE);
      DequoteConcat(cmd, w);
      assert Dequote(w)[0] == ' ';
      BehindCommand(prefix, cmd, Dequote(w));
    }
  }

  lemma BehindCommand(prefix: string, cmd: string, w: string)
    requires Plain(cmd) && ' ' !in cmd && w != "" && w[0] == ' '
    ensures Arguments(prefix, cmd + w).Some?
    ensures Arguments(prefix, cmd + w).value.prefix == prefix && Arguments(prefix, cmd + w).value.command == cmd
  {
    assert NoColon(cmd);
    LastNot(cmd, ' ');
    ColonAfter(cmd, w);
    var k := Colon(w);
    FirstWordOf(cmd, w, k);
    FirstWordOf(cmd, w, |w|);
    assert w[..|w|] == w;
    hide Words, Colon, Word, IsSpace, NoColon, Plain;
  }

  lemma FirstWordOf(cmd: string, w: string, k: nat)
    requires Word(cmd) && w != "" && w[0] == ' ' && k <= |w|
    ensures (cmd + w)[..|cmd| + k] == cmd + w[..k]
    ensures Words(cmd + w[..k]) == [cmd] + Words(w[..k])
  {
    hide Words, Word, IsSpace;
    CutConcat(cmd, w, k);
    WordsFirstSpace(cmd, w[..k]);
  }

  lemma CutConcat(a: string, b: string, k: nat)
    requires k <= |b|
    ensures (a + b)[..|a| + k] == a + b[..k]
    ensures |b[..k]| == k && (k > 0 ==> b[..k][0] == b[0])
  {
  }

  predicate OfKind(line: Line, e: Event) {
    match e
    case Ignored => true
    case SignedOn(_) => line.Welcome?
    case UserJoined(_, _) => line.Joined?
    case UserLeft(_, _) => line.Parted?
    case UserQuit(_) => line.HasQuit?
    case UserRenamed(_, _) => line.Renamed?
    case NamesShown(_, _) => line.Names?
    case ModeChanged(_, _) => line.Moded?
  }

  /** Wherever a line is cut and whatever is quoted in it, it is not taken for another kind. */
  lemma KindKept(line: Line)
    requires ' ' !in Source(line)
    ensures OfKind(line, Hear(line))
  {
    if Sendable(Render(line)) && !line.Welcome? {
      HearIs(line);
      ParsedKind(line);
      hide *;
      UnderstandKind(line, Dequote(OnWire(Render(line))));
    }
  }

  lemma UnderstandKind(line: Line, s: string)
    requires Parse(s).Some? ==> Parse(s).value.command == Kind(line) || Parse(s).value.command < Kind(line)
    ensures OfKind(line, Understand(s))
  {
    hide Parse, React;
    if Parse(s).Some? {
      KindsApart(line, Parse(s).value.command);
      ReactKind(line, Parse(s).value);
    }
  }

  lemma ReactKind(line: Line, m: Message)
    requires m.command in {"JOIN", "PART", "QUIT", "NICK", "353", "MODE"} ==> m.command == Kind(line)
    ensures OfKind(line, React(m))
  {
    hide NickIn, Words;
  }

  lemma KindsApart(line: Line, command: string)
    requires command == Kind(line) || command < Kind(line)
    ensures command in {"JOIN", "PART", "QUIT", "NICK", "353", "MODE"} ==> command == Kind(line)
  {
    assert |Kind(line)| <= 4 && (|Kind(line)| == 4 ==> Kind(line)[0] != '3');
  }

  lemma ParsedKind(line: Line)
    requires ' ' !in Source(line)
    ensures
      var m := Parse(Dequote(OnWire(Render(line))));
      m.Some? ==> m.value.command == Kind(line) || m.value.command < Kind(line)
  {
    var more := RenderParts(line);
    KindPlain(line);
    SourceEnds(line);
    hide *;
    var n := CutAt(Render(line));
    ParsedCut(Source(line), Kind(line), more, n);
  }

  lemma ParsedCut(src: string, cmd: string, more: string, n: nat)
    requires ' ' !in src && src != "" && src[|src| - 1] != QUOTE
    requires Plain(cmd) && ' ' !in cmd && (more == "" || more[0] == ' ')
    requires n <= |(":" + src) + (" " + (cmd + more))|
    ensures
      var m := Parse(Dequote(((":" + src) + (" " + (cmd + more)))[..n]));
      m.Some? ==> m.value.command == cmd || m.value.command < cmd
  {
    hide *;
    if n <= |src| + 1 {
      assert ((":" + src) + (" " + (cmd + more)))[..n] == (":" + src)[..n];
      NothingBehind((":" + src)[..n]);
    } else {
      CutBehindPrefix(":" + src, cmd + more, n);
      DequoteBehind(src, (cmd + more)[..n - |src| - 2]);
      DequoteSpaces(src);
      ParsePrefix(Dequote(src), Dequote((cmd + more)[..n - |src| - 2]));
      CommandKept(Dequote(src), cmd, more, n - |src| - 2);
    }
  }

  lemma CutBehindPrefix(pre: string, rest: string, n: nat)
    requires |pre| < n <= |pre| + 1 + |rest|
    ensures (pre + (" " + rest))[..n] == pre + (" " + rest[..n - |pre| - 1])
  {
  }

  lemma DequoteBehind(src: string, z: string)
    requires src != "" && src[|src| - 1] != QUOTE
    ensures Dequote((":" + src) + (" " + z)) == ":" + Dequote(src) + " " + Dequote(z)
  {
    DequoteConcat(":" + src, " " + z);
    DequoteSpace(z);
    DequoteColon(src);
    hide *;
    assert ":" + Dequote(src) + (" " + Dequote(z)) == ":" + Dequote(src) + " " + Dequote(z);
  }

  lemma CutAt(s: string) returns (n: nat)
    ensures n <= |s| && OnWire(s) == s[..n]
  {
    n := |OnWire(s)|;
    CutScalars(s);
  }

  lemma SourceEnds(line: Line)
    ensures Source(line) != "" && Source(line)[|Source(line)| - 1] != QUOTE
    ensures (":" + Source(line))[|Source(line)|] != QUOTE
  {
    assert SERVER[|SERVER| - 1] == 'l';
  }

  lemma DequoteColon(s: string)
    ensures Dequote(":" + s) == ":" + Dequote(s)
  {
    assert (":" + s)[1..] == s;
  }

  lemma DequoteSpace(s: string)
    ensures Dequote(" " + s) == " " + Dequote(s)
  {
    assert (" " + s)[1..] == s;
  }

  /** A line that is cut within its prefix does not parse. */
  lemma NothingBehind(s: string)
    requires ' ' !in s && (s == "" || s[0] == ':')
    ensures Parse(Dequote(s)).None?
  {
    if s != "" {
      assert s == ":" + s[1..];
      DequoteColon(s[1..]);
      DequoteSpaces(s);
    }
    assert Dequote("") == "";
    hide Dequote, Arguments;
  }

  /** So a line whose prefix alone fills it is lost. */
  lemma LongSourceLost(line: Line)
    requires ' ' !in Source(line) && !line.Welcome? && !Fits(":" + Source(line) + " ")
    ensures Hear(line).Ignored?
  {
    var more := RenderParts(line);
    var pre, rest := ":" + Source(line), Kind(line) + more;
    hide *;
    CutWithin(pre, rest);
    NothingBehind(OnWire(pre + (" " + rest)));
    Unparsed(line);
  }

  lemma CutWithin(pre: string, rest: string)
    requires !Fits(pre + " ")
    ensures OnWire(pre + (" " + rest)) <= pre
  {
    var s := pre + (" " + rest);
    CutScalars(s);
    var n := |OnWire(s)|;
    assert OnWire(s) == s[..n] by {
      PrefixOf(s);
    }
    hide *;
    Utf8.FitPrefixLongest(Scalars(s), LINE_BYTES);
    assert Fits(s[..n]);
    if n > |pre| {
      assert s[..n] == (pre + " ") + s[|pre| + 1..n];
      FitsBefore(pre + " ", s[|pre| + 1..n]);
    } else {
      assert s[..n] == pre[..n];
    }
  }

  lemma Unparsed(line: Line)
    requires !line.Welcome? && Parse(Dequote(OnWire(Render(line)))).None?
    ensures Hear(line).Ignored?
  {
  }

  /** And a nick with a quoting character is heard without it. */
  lemma QuotedNickHeard(nick: string, user: string, channel: string)
    requires nick != "" && Unquoted(nick[0]) == nick[0]
    requires Legible(Joined(Who(nick, user), channel)) && Sendable(Render(Joined(Who([QUOTE] + nick, user), channel)))
    requires Fits(Render(Joined(Who([QUOTE] + nick, user), channel)))
    ensures Hear(Joined(Who([QUOTE] + nick, user), channel)) == UserJoined(nick, channel)
  {
    var plain, quoted := Joined(Who(nick, user), channel), Joined(Who([QUOTE] + nick, user), channel);
    assert Fits(Render(plain)) && nick[0] != QUOTE && Sendable(Render(plain));
    hide *;
    LegibleHeard(plain);
    var rest := JoinRest(nick, user, channel);
    Whole(Render(plain));
    Whole(Render(quoted));
    DequoteColon([nick[0]] + rest);
    DequoteColon([QUOTE] + [nick[0]] + rest);
    DequoteQuoted(nick[0], rest);
    HearIs(plain);
    HearIs(quoted);
    SaidJoined(plain);
  }

  lemma SaidJoined(line: Line)
    requires line.Joined?
    ensures Said(line) == UserJoined(line.who.nick, line.channel)
  {
  }

  lemma JoinRest(nick: string, user: string, channel: string) returns (rest: string)
    requires nick != ""
    ensures Render(Joined(Who(nick, user), channel)) == ":" + ([nick[0]] + rest)
    ensures Render(Joined(Who([QUOTE] + nick, user), channel)) == ":" + ([QUOTE] + [nick[0]] + rest)
  {
    var behind := "!" + user + "@" + SERVER;
    rest := nick[1..] + (behind + " " + "JOIN" + (" :" + channel));
    JoinParts(nick, user, channel, behind);
    JoinParts([QUOTE] + nick, user, channel, behind);
    hide *;
    FirstApart(nick, behind + " " + "JOIN" + (" :" + channel));
  }

  lemma FirstApart(nick: string, rest: string)
    requires nick != ""
    ensures nick + rest == [nick[0]] + (nick[1..] + rest)
    ensures [QUOTE] + nick + rest == [QUOTE] + [nick[0]] + (nick[1..] + rest)
  {
  }

  lemma JoinParts(nick: string, user: string, channel: string, behind: string)
    requires behind == "!" + user + "@" + SERVER
    ensures Render(Joined(Who(nick, user), channel)) == ":" + (nick + (behind + " " + "JOIN" + (" :" + channel)))
  {
    var line := Joined(Who(nick, user), channel);
    assert Spaced(["JOIN"]) == "JOIN";
    assert Source(line) == nick + behind;
    assert Trailing(line) == " :" + channel;
    HeadIs(line);
    RenderIs(line);
    hide Spaced, Source, Render, Head, Trailing;
    SixParts(":", nick, behind, " ", "JOIN", " :" + channel);
  }

  lemma SixParts(a: string, b: string, c: string, d: string, e: string, f: string)
    ensures a + (b + c) + d + e + f == a + (b + (c + d + e + f))
  {
  }

  lemma Whole(s: string)
    requires Fits(s)
    ensures OnWire(s) == s
  {
    Utf8.FitAll(Scalars(s), LINE_BYTES);
    CutScalars(s);
  }

  lemma DequoteQuoted(c: char, rest: string)
    requires c != QUOTE && Unquoted(c) == c
    ensures Dequote([QUOTE] + [c] + rest) == Dequote([c] + rest)
  {
    assert ([QUOTE] + [c] + rest)[2..] == rest && ([c] + rest)[1..] == rest;
  }
}

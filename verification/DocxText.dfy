/** Text extraction from a DOCX file: the chained replacements of `extractDocxText` undo, run by run, what
    a document writer does. */
module DocxText {
  import opened Sequences
  import opened ZipReader

  // ---------- The replacement passes ----------

  /** The characters of the regular expression class `\s`, which `trim` removes too. */
  predicate IsSpace(c: char) {
    || '\t' <= c <= '\r' || c == ' ' || c == '\U{A0}' || c == '\U{1680}' || '\U{2000}' <= c <= '\U{200A}'
    || c == '\U{2028}' || c == '\U{2029}' || c == '\U{202F}' || c == '\U{205F}' || c == '\U{3000}' || c == '\U{FEFF}'
  }

  /** `s.replace(/pattern/g, repl)` for a literal pattern. */
  function ReplaceAll(s: string, pattern: string, repl: string): string
    requires pattern != []
    decreases |s|
  {
    if s == [] then []
    else if pattern <= s then repl + ReplaceAll(s[|pattern|..], pattern, repl)
    else [s[0]] + ReplaceAll(s[1..], pattern, repl)
  }

  /** Where the next `>` is, counting from `i`; the length of the text if there is none. */
  function NextClose(s: string, i: nat): (j: nat)
    requires i <= |s|
    ensures i <= j <= |s|
    decreases |s| - i
  {
    if i == |s| || s[i] == '>' then i else NextClose(s, i + 1)
  }

  /** `s.replace(/<[^>]+>/g, ' ')` */
  function StripTags(s: string): string
    decreases |s|
  {
    if s == [] then []
    else
      var j := NextClose(s, 1);
      if s[0] == '<' && 2 <= j < |s| then [' '] + StripTags(s[j + 1..])
      else [s[0]] + StripTags(s[1..])
  }

  function DropSpaces(s: string): (r: string)
    ensures |r| <= |s| && (r != [] ==> !IsSpace(r[0]))
  {
    if s != [] && IsSpace(s[0]) then DropSpaces(s[1..]) else s
  }

  /** `s.replace(/\s+/g, ' ')` */
  function Collapse(s: string): string
    decreases |s|
  {
    if s == [] then []
    else if IsSpace(s[0]) then [' '] + Collapse(DropSpaces(s[1..]))
    else [s[0]] + Collapse(s[1..])
  }

  function TrimEnd(s: string): string {
    if s != [] && IsSpace(s[|s| - 1]) then TrimEnd(s[..|s| - 1]) else s
  }

  function Trim(s: string): string {
    TrimEnd(DropSpaces(s))
  }

  function Unescape(s: string): string {
    ReplaceAll(ReplaceAll(ReplaceAll(s, "&lt;", "<"), "&gt;", ">"), "&amp;", "&")
  }

  /** The replacements applied to the XML of the document body. */
  function ExtractText(xml: string): string {
    Trim(Collapse(Unescape(StripTags(ReplaceAll(ReplaceAll(xml, "<w:tab/>", "\t"), "<w:br/>", "\n")))))
  }

  datatype DocxResult = Text(text: string) | NotDocx | MissingDocumentXml | UnsupportedCompression

  /** `extractDocxText`; `inflate` stands for raw inflation. */
  method ExtractDocxText(buf: array<byte>, decode: Decoder, inflate: seq<byte> -> seq<byte>) returns (r: DocxResult)
    ensures r == Docx(buf[..], decode, inflate)
  {
    if buf.Length < 2 || buf[0] != 0x50 || buf[1] != 0x4b {
      return NotDocx;
    }
    var entry := ReadZipEntry(buf, decode, "word/document.xml");
    if entry.Unsupported? {
      return UnsupportedCompression;
    }
    var xml := if entry.Missing? then [] else decode(if entry.Stored? then entry.data else inflate(entry.data));
    if xml == [] {
      return MissingDocumentXml;
    }
    r := Text(ExtractText(xml));
  }

  function Docx(buf: seq<byte>, decode: Decoder, inflate: seq<byte> -> seq<byte>): DocxResult {
    if |buf| < 2 || buf[..2] != [0x50, 0x4b] then NotDocx
    else
      match Walk(buf, decode, "word/document.xml", 0)
      case Missing => MissingDocumentXml
      case Unsupported => UnsupportedCompression
      case Stored(data) => if decode(data) == [] then MissingDocumentXml else Text(ExtractText(decode(data)))
      case Deflated(data) =>
        if decode(inflate(data)) == [] then MissingDocumentXml else Text(ExtractText(decode(inflate(data))))
  }

  /** The characters that count as white space, by number. */
  lemma SpacesAre(c: char)
    ensures IsSpace(c) <==> c as int in {
      9, 10, 11, 12, 13, 32, 160, 5760, 8192, 8193, 8194, 8195, 8196, 8197, 8198, 8199, 8200, 8201, 8202, 8232, 8233,
      8239, 8287, 12288, 65279}
  {
  }

  /** When a file is refused, and why: not beginning with `PK`, a document part that is missing or empty, or one that is
      packed in another way. */
  lemma RefusedIff(buf: seq<byte>, decode: Decoder, inflate: seq<byte> -> seq<byte>)
    ensures var part := Walk(buf, decode, "word/document.xml", 0);
      var isZip := [80, 75] <= buf;
      && (Docx(buf, decode, inflate) == NotDocx <==> !isZip)
      && (Docx(buf, decode, inflate) == UnsupportedCompression <==> isZip && part == Unsupported)
      && (Docx(buf, decode, inflate) == MissingDocumentXml <==>
            && isZip
            && (part == Missing || (part.Stored? && decode(part.data) == "")
                || (part.Deflated? && decode(inflate(part.data)) == "")))
  {
    hide Walk, ExtractText;
  }

  // ---------- Documents ----------

  /** A piece of a document body: a tag by what stands between its brackets, or the text of a run. */
  datatype Item = Tag(content: string) | Run(text: string)

  ghost predicate NoBrackets(s: string) {
    forall i :: 0 <= i < |s| ==> s[i] != '<' && s[i] != '>'
  }

  /** Text whose white space is single spaces between words. */
  ghost predicate WhitespaceNormal(s: string) {
    Trim(Collapse(s)) == s
  }

  ghost predicate ValidItem(item: Item) {
    match item
    case Tag(content) => content != [] && NoBrackets(content)
    case Run(text) => text != [] && WhitespaceNormal(text)
  }

  /** Runs are separated by tags. */
  ghost predicate ValidBody(items: seq<Item>) {
    && (forall i :: 0 <= i < |items| ==> ValidItem(items[i]))
    && (forall i :: 0 <= i < |items| - 1 && items[i].Run? ==> items[i + 1].Tag?)
  }

  /** Character data as section 4.6 of XML 1.0 has it: & is always written as an entity, < and > if asked. */
  ghost function EscapeSome(s: string, lt: bool, gt: bool): string {
    if s == [] then []
    else
      (if s[0] == '&' then "&amp;" else if s[0] == '<' && lt then "&lt;" else if s[0] == '>' && gt then "&gt;"
        else [s[0]])
      + EscapeSome(s[1..], lt, gt)
  }

  ghost function Escape(s: string): string {
    EscapeSome(s, true, true)
  }

  ghost function Render(items: seq<Item>): string {
    RenderAfter(items, 0)
  }

  /** What is left of a tag after the first `passes` tag passes. */
  ghost function TagText(content: string, passes: nat): string {
    if passes >= 1 && content == "w:tab/" then "\t"
    else if passes >= 2 && content == "w:br/" then "\n"
    else if passes >= 3 then " "
    else ['<'] + content + ['>']
  }

  ghost function ItemText(item: Item, passes: nat): string {
    if item.Tag? then TagText(item.content, passes) else Escape(item.text)
  }

  ghost function RenderAfter(items: seq<Item>, passes: nat): string {
    if items == [] then [] else ItemText(items[0], passes) + RenderAfter(items[1..], passes)
  }

  /** The runs of a body, in order. */
  ghost function Runs(items: seq<Item>): seq<string> {
    if items == [] then []
    else (if items[0].Run? then [items[0].text] else []) + Runs(items[1..])
  }

  ghost function Join(words: seq<string>): string {
    if words == [] then [] else if |words| == 1 then words[0] else words[0] + " " + Join(words[1..])
  }

  // ---------- Entities ----------

  lemma {:induction false} ReplaceSkips(plain: string, rest: string, pattern: string, repl: string)
    requires pattern != [] && forall i :: 0 <= i < |plain| ==> plain[i] != pattern[0]
    ensures ReplaceAll(plain + rest, pattern, repl) == plain + ReplaceAll(rest, pattern, repl)
  {
    if plain == [] {
      assert plain + rest == rest;
    } else {
      ReplaceSkips(plain[1..], rest, pattern, repl);
      assert (plain + rest)[1..] == plain[1..] + rest && (plain + rest)[0] == plain[0];
      Cons(plain, ReplaceAll(rest, pattern, repl));
    }
  }

  lemma Cons(s: string, rest: string)
    requires s != []
    ensures [s[0]] + (s[1..] + rest) == s + rest
  {
  }

  lemma ReplaceHits(rest: string, pattern: string, repl: string)
    requires pattern != []
    ensures ReplaceAll(pattern + rest, pattern, repl) == repl + ReplaceAll(rest, pattern, repl)
  {
    assert (pattern + rest)[|pattern|..] == rest;
  }

  /** Where the pattern starts like the text but does not match, the pass only steps over the text, if the
      pattern does not start anywhere inside. */
  lemma ReplacePasses(chunk: string, rest: string, pattern: string, repl: string)
    requires chunk != [] && pattern != [] && !(pattern <= chunk + rest)
    requires forall i :: 1 <= i < |chunk| ==> chunk[i] != pattern[0]
    ensures ReplaceAll(chunk + rest, pattern, repl) == chunk + ReplaceAll(rest, pattern, repl)
  {
    assert (chunk + rest)[1..] == chunk[1..] + rest && (chunk + rest)[0] == chunk[0];
    ReplaceSkips(chunk[1..], rest, pattern, repl);
    Cons(chunk, ReplaceAll(rest, pattern, repl));
  }

  /** An entity is not the pattern if it differs in its second character. */
  lemma PassesEntity(entity: string, rest: string, pattern: string, repl: string)
    requires |entity| >= 2 && |pattern| >= 2 && entity[1] != pattern[1]
    requires forall i :: 1 <= i < |entity| ==> entity[i] != pattern[0]
    ensures ReplaceAll(entity + rest, pattern, repl) == entity + ReplaceAll(rest, pattern, repl)
  {
    assert (entity + rest)[1] == entity[1];
    ReplacePasses(entity, rest, pattern, repl);
  }

  lemma {:induction false} UnescapeLt(s: string)
    ensures ReplaceAll(EscapeSome(s, true, true), "&lt;", "<") == EscapeSome(s, false, true)
  {
    if s != [] {
      UnescapeLt(s[1..]);
      var rest := EscapeSome(s[1..], true, true);
      if s[0] == '&' {
        PassesEntity("&amp;", rest, "&lt;", "<");
      } else if s[0] == '<' {
        ReplaceHits(rest, "&lt;", "<");
      } else if s[0] == '>' {
        PassesEntity("&gt;", rest, "&lt;", "<");
      } else {
        ReplaceSkips([s[0]], rest, "&lt;", "<");
      }
    }
  }

  lemma {:induction false} UnescapeGt(s: string)
    ensures ReplaceAll(EscapeSome(s, false, true), "&gt;", ">") == EscapeSome(s, false, false)
  {
    if s != [] {
      UnescapeGt(s[1..]);
      var rest := EscapeSome(s[1..], false, true);
      if s[0] == '&' {
        PassesEntity("&amp;", rest, "&gt;", ">");
      } else if s[0] == '>' {
        ReplaceHits(rest, "&gt;", ">");
      } else {
        ReplaceSkips([s[0]], rest, "&gt;", ">");
      }
    }
  }

  lemma {:induction false} UnescapeAmp(s: string)
    ensures ReplaceAll(EscapeSome(s, false, false), "&amp;", "&") == s
  {
    if s != [] {
      UnescapeAmp(s[1..]);
      var rest := EscapeSome(s[1..], false, false);
      if s[0] == '&' {
        ReplaceHits(rest, "&amp;", "&");
      } else {
        ReplaceSkips([s[0]], rest, "&amp;", "&");
      }
      assert s == [s[0]] + s[1..];
    }
  }

  /** Decoding `<` and `>` before `&` undoes escaping for every text, whatever it contains. */
  lemma UnescapeUndoesEscape(s: string)
    ensures Unescape(Escape(s)) == s
  {
    UnescapeLt(s);
    UnescapeGt(s);
    UnescapeAmp(s);
  }

  /** The other order would not: with & first, the text "&lt;" comes back as "<". */
  lemma AmpersandFirstWouldNot()
    ensures ReplaceAll(ReplaceAll(Escape("&lt;"), "&amp;", "&"), "&lt;", "<") == "<"
  {
    var s := "&lt;";
    assert s[1..] == "lt;" && s[1..][1..] == "t;" && s[1..][1..][1..] == ";" && s[1..][1..][1..][1..] == [];
    assert EscapeSome("lt;", true, true) == "lt;" by {
      assert EscapeSome("", true, true) == "";
      assert EscapeSome(";", true, true) == ";" + "";
      assert EscapeSome("t;", true, true) == "t" + ";";
    }
    assert Escape(s) == "&amp;" + "lt;";
    ReplaceHits("lt;", "&amp;", "&");
    assert ReplaceAll("lt;", "&amp;", "&") == "lt;";
    assert "&" + "lt;" == "&lt;" + "";
    ReplaceHits("", "&lt;", "<");
  }

  // ---------- Tags ----------

  lemma EscapeHasNoBracket(s: string, i: int)
    requires 0 <= i < |Escape(s)|
    ensures Escape(s)[i] != '<'
  {
    if s != [] {
      var head := EscapeSome([s[0]], true, true);
      assert [s[0]][1..] == [] && EscapeSome([], true, true) == [];
      assert Escape(s) == head + Escape(s[1..]);
      if i >= |head| {
        EscapeHasNoBracket(s[1..], i - |head|);
      }
    }
  }

  /** A literal tag pass at a tag: replaced if it is that tag, stepped over otherwise. */
  lemma ReplaceAtTag(content: string, rest: string, name: string, repl: string)
    requires NoBrackets(content) && NoBrackets(name) && name != []
    ensures ReplaceAll(['<'] + content + ['>'] + rest, ['<'] + name + ['>'], repl)
         == (if content == name then repl else ['<'] + content + ['>']) + ReplaceAll(rest, ['<'] + name + ['>'], repl)
  {
    var tag, pattern := ['<'] + content + ['>'], ['<'] + name + ['>'];
    var s := tag + rest;
    if content == name {
      ReplaceHits(rest, pattern, repl);
    } else {
      if pattern <= s {
        TagIsDelimited(content, rest, name);
        assert false;
      }
      ReplacePasses(tag, rest, pattern, repl);
    }
  }

  lemma TagIsDelimited(content: string, rest: string, name: string)
    requires NoBrackets(content) && NoBrackets(name)
    requires var s, pattern := ['<'] + content + ['>'] + rest, ['<'] + name + ['>'];
      pattern <= s
    ensures content == name
  {
    var s, pattern := ['<'] + content + ['>'] + rest, ['<'] + name + ['>'];
    assert forall i :: 0 <= i < |pattern| ==> s[i] == pattern[i];
    assert s[|content| + 1] == '>' && pattern[|name| + 1] == '>';
    assert forall i :: 0 <= i < |content| ==> s[i + 1] == content[i];
    assert forall i :: 0 <= i < |name| ==> pattern[i + 1] == name[i];
    assert |content| == |name|;
  }

  ghost predicate ValidItems(items: seq<Item>) {
    forall i :: 0 <= i < |items| ==> ValidItem(items[i])
  }

  /** The white space a tag leaves behind after `passes` passes, or nothing if it still is a tag. */
  ghost predicate IsReplaced(content: string, passes: nat) {
    (passes >= 1 && content == "w:tab/") || (passes >= 2 && content == "w:br/")
  }

  lemma LiteralPassOnItem(item: Item, rest: string, passes: nat, name: string, repl: string)
    requires ValidItem(item) && (passes == 0 || passes == 1)
    requires name == if passes == 0 then "w:tab/" else "w:br/"
    requires repl == if passes == 0 then "\t" else "\n"
    ensures ReplaceAll(ItemText(item, passes) + rest, ['<'] + name + ['>'], repl)
         == ItemText(item, passes + 1) + ReplaceAll(rest, ['<'] + name + ['>'], repl)
  {
    match item
    case Run(text) =>
      forall i | 0 <= i < |Escape(text)| ensures Escape(text)[i] != '<' {
        EscapeHasNoBracket(text, i);
      }
      ReplaceSkips(Escape(text), rest, ['<'] + name + ['>'], repl);
    case Tag(content) =>
      if IsReplaced(content, passes) {
        ReplaceSkips("\t", rest, ['<'] + name + ['>'], repl);
      } else {
        ReplaceAtTag(content, rest, name, repl);
      }
  }

  /** The first two passes turn the tab and the break tag, and nothing else, into a character. */
  lemma {:induction false} LiteralPass(items: seq<Item>, passes: nat, name: string, repl: string)
    requires ValidItems(items) && (passes == 0 || passes == 1)
    requires name == if passes == 0 then "w:tab/" else "w:br/"
    requires repl == if passes == 0 then "\t" else "\n"
    ensures ReplaceAll(RenderAfter(items, passes), ['<'] + name + ['>'], repl) == RenderAfter(items, passes + 1)
  {
    if items != [] {
      hide ItemText;
      LiteralPass(items[1..], passes, name, repl);
      LiteralPassOnItem(items[0], RenderAfter(items[1..], passes), passes, name, repl);
    }
  }

  lemma {:induction false} StripSkips(plain: string, rest: string)
    requires forall i :: 0 <= i < |plain| ==> plain[i] != '<'
    ensures StripTags(plain + rest) == plain + StripTags(rest)
  {
    if plain == [] {
      assert plain + rest == rest;
    } else {
      StripSkips(plain[1..], rest);
      assert (plain + rest)[1..] == plain[1..] + rest && (plain + rest)[0] == plain[0];
      Cons(plain, StripTags(rest));
    }
  }

  lemma {:induction false} NextCloseAfter(s: string, i: nat, j: nat)
    requires i <= j < |s| && s[j] == '>' && forall k :: i <= k < j ==> s[k] != '>'
    ensures NextClose(s, i) == j
    decreases j - i
  {
    if i < j {
      NextCloseAfter(s, i + 1, j);
    }
  }

  lemma StripHits(content: string, rest: string)
    requires content != [] && NoBrackets(content)
    ensures StripTags(['<'] + content + ['>'] + rest) == " " + StripTags(rest)
  {
    var s := ['<'] + content + ['>'] + rest;
    assert forall k :: 1 <= k < |content| + 1 ==> s[k] == content[k - 1];
    assert s[|content| + 1] == '>';
    NextCloseAfter(s, 1, |content| + 1);
    assert s[|content| + 2..] == rest;
  }

  lemma StripPassOnItem(item: Item, rest: string)
    requires ValidItem(item)
    ensures StripTags(ItemText(item, 2) + rest) == ItemText(item, 3) + StripTags(rest)
  {
    match item
    case Run(text) =>
      forall i | 0 <= i < |Escape(text)| ensures Escape(text)[i] != '<' {
        EscapeHasNoBracket(text, i);
      }
      StripSkips(Escape(text), rest);
    case Tag(content) =>
      if IsReplaced(content, 2) {
        StripSkips(TagText(content, 2), rest);
      } else {
        StripHits(content, rest);
      }
  }

  /** The third pass turns every remaining tag into a space and keeps the runs. */
  lemma {:induction false} StripPass(items: seq<Item>)
    requires ValidItems(items)
    ensures StripTags(RenderAfter(items, 2)) == RenderAfter(items, 3)
  {
    if items != [] {
      hide ItemText;
      StripPass(items[1..]);
      StripPassOnItem(items[0], RenderAfter(items[1..], 2));
    }
  }

  /** The text of a body with tags as white space, before escaping. */
  ghost function Plain(items: seq<Item>): string {
    if items == [] then []
    else (if items[0].Tag? then TagText(items[0].content, 3) else items[0].text) + Plain(items[1..])
  }

  lemma {:induction false} EscapeAppend(a: string, b: string)
    ensures Escape(a + b) == Escape(a) + Escape(b)
  {
    if a == [] {
      assert a + b == b;
    } else {
      assert (a + b)[1..] == a[1..] + b;
      EscapeAppend(a[1..], b);
    }
  }

  lemma SeparatorIsSpace(content: string)
    ensures |TagText(content, 3)| == 1 && IsSpace(TagText(content, 3)[0])
    ensures Escape(TagText(content, 3)) == TagText(content, 3)
  {
    var t := TagText(content, 3);
    assert t[1..] == [] && EscapeSome([], true, true) == [];
  }

  lemma {:induction false} RenderIsEscapedPlain(items: seq<Item>)
    ensures RenderAfter(items, 3) == Escape(Plain(items))
  {
    if items != [] {
      RenderIsEscapedPlain(items[1..]);
      if items[0].Tag? {
        SeparatorIsSpace(items[0].content);
        EscapeAppend(TagText(items[0].content, 3), Plain(items[1..]));
      } else {
        EscapeAppend(items[0].text, Plain(items[1..]));
      }
    }
  }

  // ---------- White space: words joined by single spaces ----------

  ghost function WordLength(s: string): (n: nat)
    ensures n <= |s| && (forall i :: 0 <= i < n ==> !IsSpace(s[i])) && (n < |s| ==> IsSpace(s[n]))
  {
    if s == [] || IsSpace(s[0]) then 0 else 1 + WordLength(s[1..])
  }

  /** The maximal stretches without white space. */
  ghost function Words(s: string): seq<string>
    decreases |s|
  {
    if s == [] then []
    else if IsSpace(s[0]) then Words(s[1..])
    else [s[..WordLength(s)]] + Words(s[WordLength(s)..])
  }

  lemma {:induction false} CollapseKeepsWord(word: string, rest: string)
    requires forall i :: 0 <= i < |word| ==> !IsSpace(word[i])
    ensures Collapse(word + rest) == word + Collapse(rest)
  {
    if word == [] {
      assert word + rest == rest;
    } else {
      CollapseKeepsWord(word[1..], rest);
      assert (word + rest)[1..] == word[1..] + rest && (word + rest)[0] == word[0];
      Cons(word, Collapse(rest));
    }
  }

  lemma {:induction false} TrimEndKeeps(front: string, s: string)
    requires TrimEnd(s) != []
    ensures TrimEnd(front + s) == front + TrimEnd(s)
    decreases |s|
  {
    if IsSpace(s[|s| - 1]) {
      assert (front + s)[..|front + s| - 1] == front + s[..|s| - 1];
      TrimEndKeeps(front, s[..|s| - 1]);
    }
  }

  lemma {:induction false} DroppedWords(s: string)
    ensures Words(DropSpaces(s)) == Words(s)
  {
    if s != [] && IsSpace(s[0]) {
      DroppedWords(s[1..]);
    }
  }

  lemma {:induction false} DropCommutes(s: string)
    ensures DropSpaces(Collapse(s)) == Collapse(DropSpaces(s))
  {
    if s != [] && IsSpace(s[0]) {
      var t := DropSpaces(s[1..]);
      assert Collapse(s) == [' '] + Collapse(t) && Collapse(s)[1..] == Collapse(t);
      assert DropSpaces(Collapse(s)) == DropSpaces(Collapse(t));
      if t != [] {
        assert Collapse(t)[0] == t[0];
      }
    }
  }

  /** The first word, and what follows it. */
  lemma FirstWord(s: string) returns (word: string, rest: string)
    requires s != [] && !IsSpace(s[0])
    ensures s == word + rest && word != [] && !IsSpace(word[|word| - 1]) && |DropSpaces(rest)| < |s|
    ensures Words(s) == [word] + Words(DropSpaces(rest))
    ensures Collapse(s) == word + (if rest == [] then [] else " " + Collapse(DropSpaces(rest)))
  {
    var n := WordLength(s);
    word, rest := s[..n], s[n..];
    CollapseKeepsWord(word, rest);
    DroppedWords(rest);
    assert rest != [] ==> DropSpaces(rest) == DropSpaces(rest[1..]);
  }

  /** From the first word on, collapsing and trimming the end leaves the words joined by single spaces. */
  lemma {:induction false} TrimmedIsJoined(s: string)
    requires s != [] && !IsSpace(s[0])
    ensures TrimEnd(Collapse(s)) == Join(Words(s)) && Words(s) != [] && Join(Words(s)) != []
    decreases |s|
  {
    hide Words, Collapse, DropSpaces;
    var word, rest := FirstWord(s);
    var next := DropSpaces(rest);
    if next == [] {
      assert Words([]) == [] && Collapse([]) == [] by {
        EmptyText();
      }
      assert rest != [] ==> (word + " ")[..|word + " "| - 1] == word;
      assert rest != [] ==> Collapse(s) == word + " ";
    } else {
      DropsToWord(rest);
      TrimmedIsJoined(next);
      Assoc(word, " ", Collapse(next));
      TrimEndKeeps(word + " ", Collapse(next));
      assert Words(s)[1..] == Words(next);
    }
  }

  lemma EmptyText()
    ensures Words([]) == [] && Collapse([]) == []
  {
  }

  lemma DropsToWord(s: string)
    ensures DropSpaces(s) != [] ==> !IsSpace(DropSpaces(s)[0]) && s != []
  {
  }

  /** White-space normalization, for every text: its words joined by single spaces. */
  lemma NormalizeIsJoinedWords(s: string)
    ensures Trim(Collapse(s)) == Join(Words(s))
  {
    var t := DropSpaces(s);
    DropCommutes(s);
    DroppedWords(s);
    if t != [] {
      TrimmedIsJoined(t);
    }
  }

  lemma {:induction false} WordsSplit(a: string, space: char, b: string)
    requires IsSpace(space)
    ensures Words(a + [space] + b) == Words(a) + Words(b)
    decreases |a|
  {
    var s := a + [space] + b;
    if a == [] {
      assert s[1..] == b;
    } else if IsSpace(a[0]) {
      assert s[1..] == a[1..] + [space] + b;
      WordsSplit(a[1..], space, b);
    } else {
      var n := WordLength(a);
      WordLengthSplit(a, space, b);
      assert s[..n] == a[..n] && s[n..] == a[n..] + [space] + b;
      WordsSplit(a[n..], space, b);
      assert Words(s) == [s[..n]] + Words(s[n..]);
    }
  }

  lemma {:induction false} WordLengthSplit(a: string, space: char, b: string)
    requires IsSpace(space)
    ensures WordLength(a + [space] + b) == WordLength(a)
  {
    if a != [] && !IsSpace(a[0]) {
      assert (a + [space] + b)[1..] == a[1..] + [space] + b;
      WordLengthSplit(a[1..], space, b);
    }
  }

  ghost function RunWords(items: seq<Item>): seq<string> {
    if items == [] then []
    else (if items[0].Run? then Words(items[0].text) else []) + RunWords(items[1..])
  }

  /** The words of a body are those of its runs: tags separate, and runs do not touch. */
  lemma {:induction false} BodyWords(items: seq<Item>)
    requires ValidBody(items)
    ensures Words(Plain(items)) == RunWords(items)
    decreases |items|
  {
    if items != [] {
      assert ValidBody(items[1..]);
      BodyWords(items[1..]);
      if items[0].Tag? {
        SeparatorIsSpace(items[0].content);
        assert Plain(items)[1..] == Plain(items[1..]);
      } else if |items| == 1 {
        assert Plain(items) == items[0].text;
        assert RunWords(items) == Words(items[0].text);
      } else {
        SeparatorIsSpace(items[1].content);
        PlainAfterRun(items);
        WordsSplit(items[0].text, TagText(items[1].content, 3)[0], Plain(items[2..]));
      }
    }
  }

  /** A run is followed by the separator of the tag behind it. */
  lemma PlainAfterRun(items: seq<Item>)
    requires ValidBody(items) && |items| > 1 && items[0].Run?
    ensures items[1].Tag? && |TagText(items[1].content, 3)| == 1
    ensures Plain(items) == items[0].text + [TagText(items[1].content, 3)[0]] + Plain(items[2..])
    ensures Words(Plain(items[1..])) == Words(Plain(items[2..]))
  {
    hide Words, TagText, WhitespaceNormal;
    var rest := items[1..];
    assert rest[0] == items[1] && rest[1..] == items[2..];
    PlainOfTag(rest);
    Assoc(items[0].text, [TagText(items[1].content, 3)[0]], Plain(items[2..]));
  }

  lemma PlainOfTag(items: seq<Item>)
    requires items != [] && items[0].Tag?
    ensures |TagText(items[0].content, 3)| == 1
    ensures Plain(items) == [TagText(items[0].content, 3)[0]] + Plain(items[1..])
    ensures Words(Plain(items)) == Words(Plain(items[1..]))
  {
    SeparatorIsSpace(items[0].content);
    assert Plain(items)[1..] == Plain(items[1..]);
  }

  lemma {:induction false} JoinAppend(a: seq<string>, b: seq<string>)
    requires a != [] && b != []
    ensures Join(a + b) == Join(a) + " " + Join(b)
  {
    if |a| == 1 {
      assert (a + b)[1..] == b;
    } else {
      assert (a + b)[1..] == a[1..] + b;
      JoinAppend(a[1..], b);
      assert Join(a) == a[0] + " " + Join(a[1..]);
    }
  }

  /** Runs that are their own words joined can be joined word by word or run by run. */
  lemma {:induction false} JoinRuns(items: seq<Item>)
    requires ValidItems(items)
    ensures Join(RunWords(items)) == Join(Runs(items))
    ensures RunWords(items) == [] <==> Runs(items) == []
  {
    if items != [] {
      JoinRuns(items[1..]);
      if items[0].Run? {
        var text, words := items[0].text, Words(items[0].text);
        NormalizeIsJoinedWords(text);
        assert Join(words) == text && words != [];
        var laterWords, later := RunWords(items[1..]), Runs(items[1..]);
        assert Runs(items)[1..] == later;
        if later == [] {
          assert RunWords(items) == words && Runs(items) == [text];
        } else {
          JoinAppend(words, laterWords);
          JoinAppend([text], later);
        }
      } else {
        assert RunWords(items) == RunWords(items[1..]) && Runs(items) == Runs(items[1..]);
      }
    }
  }

  /** The round trip: from the XML of a body whose runs are separated by tags, non-empty and white-space
      normal, extraction returns the runs joined by single spaces, whatever characters they contain. */
  lemma ExtractionReturnsRuns(items: seq<Item>)
    requires ValidBody(items)
    ensures ExtractText(Render(items)) == Join(Runs(items))
  {
    hide ReplaceAll, StripTags, Unescape, Collapse, Trim, RenderAfter, Plain, Escape, Words, Runs, RunWords, Join;
    LiteralPass(items, 0, "w:tab/", "\t");
    LiteralPass(items, 1, "w:br/", "\n");
    assert ['<'] + "w:tab/" + ['>'] == "<w:tab/>" && ['<'] + "w:br/" + ['>'] == "<w:br/>";
    StripPass(items);
    RenderIsEscapedPlain(items);
    UnescapeUndoesEscape(Plain(items));
    NormalizeIsJoinedWords(Plain(items));
    BodyWords(items);
    JoinRuns(items);
  }

  /** From file to text: an archive that starts with a header and whose first word/document.xml is a stored
      body gives the runs of that body. */
  lemma DocxFileReturnsRuns(parts: seq<Part>, tail: seq<byte>, decode: Decoder, inflate: seq<byte> -> seq<byte>,
                            data: seq<byte>, items: seq<Item>)
    requires forall i :: 0 <= i < |parts| ==> ValidEntry(parts[i].entry) && SignatureFree(parts[i].junk)
    requires SkippedTail(tail) && parts != [] && parts[0].junk == [] && (tail == [] ==> !Bare(parts[|parts| - 1].entry))
    requires FirstNamed(parts, decode, "word/document.xml") == Stored(data)
    requires ValidBody(items) && items != [] && decode(data) == Render(items)
    ensures Docx(EncodeAll(parts, tail), decode, inflate) == Text(Join(Runs(items)))
  {
    ReadsFirstNamed(parts, tail, decode, "word/document.xml");
    var buf := EncodeAll(parts, tail);
    StartsWithHeader(parts[0].entry, EncodeAll(parts[1..], tail));
    assert buf == Encode(parts[0].entry) + EncodeAll(parts[1..], tail);
    ExtractionReturnsRuns(items);
    RenderedIsNotEmpty(items);
  }

  lemma StartsWithHeader(e: Entry, rest: seq<byte>)
    requires ValidEntry(e)
    ensures |Encode(e) + rest| >= 2 && (Encode(e) + rest)[..2] == [0x50, 0x4b]
  {
  }

  lemma RenderedIsNotEmpty(items: seq<Item>)
    requires ValidBody(items) && items != []
    ensures Render(items) != []
  {
    if items[0].Run? {
      assert |Escape(items[0].text)| > 0;
    }
  }
}

/** internal/dat/parse.go: the clrmamepro lexer, the recursive block reader and the
    catalogue built from the blocks. */
module ClrMame {
  import opened Options
  import opened Spans
  import opened Text

  // ---------- Lexer ----------

  datatype Tok = Word(val: string) | Quoted(val: string) | Open | Close

  predicate IsDelimiter(c: char) { IsSpace(c) || c == '(' || c == ')' || c == '"' }

  function WordLength(s: string): (n: nat)
    ensures n <= |s|
    ensures n < |s| ==> IsDelimiter(s[n])
    ensures forall k :: 0 <= k < n ==> !IsDelimiter(s[k])
  {
    if s == "" || IsDelimiter(s[0]) then 0 else 1 + WordLength(s[1..])
  }

  function QuoteLength(s: string): (n: nat)
    ensures n <= |s|
    ensures n < |s| ==> s[n] == '"'
    ensures forall k :: 0 <= k < n ==> s[k] != '"'
  {
    if s == "" || s[0] == '"' then 0 else 1 + QuoteLength(s[1..])
  }

  function Lex(s: string): seq<Tok>
    decreases |s|
  {
    if s == "" then []
    else if IsSpace(s[0]) then Lex(s[1..])
    else if s[0] == '(' then [Open] + Lex(s[1..])
    else if s[0] == ')' then [Close] + Lex(s[1..])
    else if s[0] == '"' then
      var n := QuoteLength(s[1..]);
      [Quoted(s[1..n + 1])] + Lex(if n + 1 < |s| then s[n + 2..] else "")
    else
      var n := WordLength(s);
      [Word(s[..n])] + Lex(s[n..])
  }

  lemma Push<T>(out: seq<T>, t: T, tail: seq<T>)
    ensures out + ([t] + tail) == (out + [t]) + tail
  {
  }

  method ScanQuoted(s: string, start: nat) returns (i: nat)
    requires start <= |s|
    ensures i == start + QuoteLength(s[start..])
  {
    i := start;
    while i < |s| && s[i] != '"'
      invariant start <= i <= |s|
      invariant QuoteLength(s[start..]) == i - start + QuoteLength(s[i..])
    {
      assert s[i..][1..] == s[i + 1..];
      i := i + 1;
    }
  }

  method ScanWord(s: string, start: nat) returns (i: nat)
    requires start <= |s|
    ensures i == start + WordLength(s[start..])
  {
    i := start;
    while i < |s| && !IsSpace(s[i]) && s[i] != '(' && s[i] != ')' && s[i] != '"'
      invariant start <= i <= |s|
      invariant WordLength(s[start..]) == i - start + WordLength(s[i..])
    {
      assert s[i..][1..] == s[i + 1..];
      i := i + 1;
    }
  }

  lemma LexParenAt(s: string, start: nat)
    requires start < |s| && (s[start] == '(' || s[start] == ')')
    ensures Lex(s[start..]) == [if s[start] == '(' then Open else Close] + Lex(s[start + 1..])
  {
    assert s[start..][1..] == s[start + 1..];
  }

  /** An unclosed quote runs to the end of the file. */
  lemma LexQuotedAt(s: string, start: nat, i: nat, next: nat)
    requires start < |s| && s[start] == '"' && i == start + 1 + QuoteLength(s[start + 1..])
    requires next == if i < |s| then i + 1 else i
    ensures Lex(s[start..]) == [Quoted(s[start + 1..i])] + Lex(s[next..])
  {
    var rest := s[start..];
    var n := QuoteLength(rest[1..]);
    assert rest[1..] == s[start + 1..];
    assert rest[1..n + 1] == s[start + 1..i];
    assert (if n + 1 < |rest| then rest[n + 2..] else "") == s[next..];
  }

  lemma LexWordAt(s: string, start: nat, i: nat)
    requires start < |s| && !IsDelimiter(s[start]) && i == start + WordLength(s[start..])
    ensures start < i && Lex(s[start..]) == [Word(s[start..i])] + Lex(s[i..])
  {
    var rest := s[start..];
    assert rest[..i - start] == s[start..i] && rest[i - start..] == s[i..];
  }

  /** The four arms of the lexer's switch that produce a token. */
  method NextToken(s: string, start: nat) returns (tok: Tok, i: nat)
    requires start < |s| && !IsSpace(s[start])
    ensures start < i <= |s|
    ensures Lex(s[start..]) == [tok] + Lex(s[i..])
  {
    var c := s[start];
    if c == '(' {
      tok, i := Open, start + 1;
      LexParenAt(s, start);
    } else if c == ')' {
      tok, i := Close, start + 1;
      LexParenAt(s, start);
    } else if c == '"' {
      var stop := ScanQuoted(s, start + 1);
      tok, i := Quoted(s[start + 1..stop]), if stop < |s| then stop + 1 else stop;
      LexQuotedAt(s, start, stop, i);
    } else {
      i := ScanWord(s, start);
      tok := Word(s[start..i]);
      LexWordAt(s, start, i);
    }
  }

  method LexCMP(s: string) returns (out: seq<Tok>)
    ensures out == Lex(s)
  {
    out := [];
    var i := 0;
    while i < |s|
      invariant 0 <= i <= |s|
      invariant Lex(s) == out + Lex(s[i..])
      decreases |s| - i
    {
      if IsSpace(s[i]) {
        assert s[i..][1..] == s[i + 1..];
        i := i + 1;
      } else {
        var tok, next := NextToken(s, i);
        Push(out, tok, Lex(s[next..]));
        out, i := out + [tok], next;
      }
    }
    assert s[i..] == "";
  }

  // ---------- Block reader ----------

  datatype Block = Block(scalars: map<string, string>, subs: map<string, seq<Block>>) {
    function Str(key: string): string { if key in scalars then scalars[key] else "" }

    function Blocks(key: string): seq<Block> { if key in subs then subs[key] else [] }

    /** The first value of a key wins. */
    function WithScalar(key: string, val: string): Block {
      if key in scalars then this else this.(scalars := scalars[key := val])
    }

    function WithSub(key: string, sub: Block): Block {
      this.(subs := subs[key := Blocks(key) + [sub]])
    }
  }

  const EMPTY: Block := Block(map[], map[])

  function ReadItems(toks: seq<Tok>, i: nat, blk: Block): (r: (Block, nat))
    requires i <= |toks|
    ensures i <= r.1 <= |toks|
    decreases |toks| - i
  {
    if i == |toks| then (blk, i)
    else if toks[i].Close? then (blk, i + 1)
    else if !toks[i].Word? then ReadItems(toks, i + 1, blk)
    else
      var key := Lower(toks[i].val);
      if i + 1 < |toks| && toks[i + 1].Open? then
        var (sub, next) := ReadItems(toks, i + 2, EMPTY);
        ReadItems(toks, next, blk.WithSub(key, sub))
      else if i + 1 < |toks| && (toks[i + 1].Word? || toks[i + 1].Quoted?) then
        ReadItems(toks, i + 2, blk.WithScalar(key, toks[i + 1].val))
      else ReadItems(toks, i + 1, blk)
  }

  method ReadBlock(toks: seq<Tok>, open: nat) returns (blk: Block, next: nat)
    requires open < |toks|
    ensures (blk, next) == ReadItems(toks, open + 1, EMPTY)
    ensures open < next <= |toks|
    decreases |toks| - open
  {
    blk := EMPTY;
    var i := open + 1;
    while i < |toks|
      invariant open < i <= |toks|
      invariant ReadItems(toks, open + 1, EMPTY) == ReadItems(toks, i, blk)
      decreases |toks| - i
    {
      var t := toks[i];
      if t.Close? {
        return blk, i + 1;
      }
      if !t.Word? {
        i := i + 1;
        continue;
      }
      var key := Lower(t.val);
      if i + 1 < |toks| && toks[i + 1].Open? {
        var sub, after := ReadBlock(toks, i + 1);
        blk := blk.WithSub(key, sub);
        i := after;
        continue;
      }
      if i + 1 < |toks| && (toks[i + 1].Word? || toks[i + 1].Quoted?) {
        if key !in blk.scalars {
          blk := blk.(scalars := blk.scalars[key := toks[i + 1].val]);
        }
        i := i + 2;
        continue;
      }
      i := i + 1;
    }
    return blk, i;
  }

  // ---------- Catalogue ----------

  datatype Header = Header(name: string, description: string, version: string, date: string)
  datatype Rom = Rom(name: string, size: int, crc: string, md5: string, sha1: string, serial: string)

  /** `region` is the explicit attribute; everything derived from the name is left out. */
  datatype Game = Game(name: string, description: string, cloneOf: string, region: string, roms: seq<Rom>)

  datatype File = File(header: Header, games: seq<Game>)

  const NO_HEADER: Header := Header("", "", "", "")

  function NormHash(s: string): string { Lower(Trim(s)) }

  predicate IsHeaderWord(w: string) { w == "clrmamepro" || w == "datafile" || w == "header" }

  predicate IsGameWord(w: string) { w == "game" || w == "machine" || w == "set" }

  function HeaderOf(b: Block): Header {
    Header(b.Str("name"), b.Str("description"), b.Str("version"), b.Str("date"))
  }

  function RomOf(b: Block): Rom {
    Rom(b.Str("name"), ParseInt(b.Str("size")), NormHash(b.Str("crc")), NormHash(b.Str("md5")),
        NormHash(b.Str("sha1")), b.Str("serial"))
  }

  function RomsOf(bs: seq<Block>): seq<Rom> {
    if bs == [] then []
    else RomsOf(bs[..|bs| - 1])
         + if bs[|bs| - 1].Str("name") == "" then [] else [RomOf(bs[|bs| - 1])]
  }

  function GameOf(b: Block): Game {
    Game(b.Str("name"), b.Str("description"), b.Str("cloneof"), b.Str("region"), RomsOf(b.Blocks("rom")))
  }

  /** The effect of one top-level block on the file read so far. */
  function AddBlock(file: File, word: string, b: Block): File {
    if IsHeaderWord(word) then file.(header := HeaderOf(b))
    else if IsGameWord(word) && b.Str("name") != "" then file.(games := file.games + [GameOf(b)])
    else file
  }

  function ParseFrom(toks: seq<Tok>, i: nat, file: File): File
    requires i <= |toks|
    decreases |toks| - i
  {
    if i == |toks| then file
    else if !toks[i].Word? || i + 1 == |toks| || !toks[i + 1].Open? then ParseFrom(toks, i + 1, file)
    else
      var (body, next) := ReadItems(toks, i + 2, EMPTY);
      ParseFrom(toks, next, AddBlock(file, Lower(toks[i].val), body))
  }

  /** `None` is the error "no clrmamepro blocks found". */
  function Parsed(src: string): Option<File> {
    var file := ParseFrom(Lex(src), 0, File(NO_HEADER, []));
    if file.header.name == "" && file.games == [] then None else Some(file)
  }

  method ParseClrMamePro(src: string) returns (r: Option<File>)
    ensures r == Parsed(src)
  {
    var toks := LexCMP(src);
    var header, games := NO_HEADER, [];
    var i := 0;
    while i < |toks|
      invariant 0 <= i <= |toks|
      invariant ParseFrom(toks, 0, File(NO_HEADER, [])) == ParseFrom(toks, i, File(header, games))
      decreases |toks| - i
    {
      if !toks[i].Word? {
        i := i + 1;
        continue;
      }
      var name := Lower(toks[i].val);
      if i + 1 >= |toks| || !toks[i + 1].Open? {
        i := i + 1;
        continue;
      }
      var body, next := ReadBlock(toks, i + 1);
      i := next;
      if IsHeaderWord(name) {
        header := Header(body.Str("name"), body.Str("description"), body.Str("version"), body.Str("date"));
      } else if IsGameWord(name) {
        if body.Str("name") == "" {
          continue;
        }
        var roms, subs := [], body.Blocks("rom");
        for k := 0 to |subs|
          invariant roms == RomsOf(subs[..k])
        {
          var sub := subs[k];
          assert subs[..k + 1][..k] == subs[..k];
          var romName := sub.Str("name");
          if romName == "" {
            continue;
          }
          var size := ParseInt(sub.Str("size"));
          roms := roms + [Rom(romName, size, NormHash(sub.Str("crc")), NormHash(sub.Str("md5")),
                              NormHash(sub.Str("sha1")), sub.Str("serial"))];
        }
        assert subs[..|subs|] == subs;
        games := games + [Game(body.Str("name"), body.Str("description"), body.Str("cloneof"), body.Str("region"),
            roms)];
      }
    }
    if header.name == "" && |games| == 0 {
      return None;
    }
    return Some(File(header, games));
  }

  // ---------- Printing tokens: the lexer inverts every layout ----------

  predicate IsBareWord(w: string) { w != "" && forall k :: 0 <= k < |w| ==> !IsDelimiter(w[k]) }

  predicate TokOk(t: Tok) {
    match t
    case Word(w) => IsBareWord(w)
    case Quoted(v) => '"' !in v
    case _ => true
  }

  function Spell(t: Tok): string {
    match t
    case Word(w) => w
    case Quoted(v) => "\"" + v + "\""
    case Open => "("
    case Close => ")"
  }

  /** A printed file: every token followed by white space, or by none. */
  datatype Piece = Piece(tok: Tok, gap: string)

  /** Only two words must not touch. */
  predicate PieceOk(ps: seq<Piece>, i: nat)
    requires i < |ps|
  {
    && TokOk(ps[i].tok) && AllSpace(ps[i].gap)
    && (ps[i].gap == "" && i + 1 < |ps| ==> !(ps[i].tok.Word? && ps[i + 1].tok.Word?))
  }

  ghost predicate LayoutOk(ps: seq<Piece>) { forall i {:trigger PieceOk(ps, i)} :: 0 <= i < |ps| ==> PieceOk(ps, i) }

  lemma LayoutTail(ps: seq<Piece>)
    requires ps != [] && LayoutOk(ps)
    ensures LayoutOk(ps[1..])
  {
    forall i | 0 <= i < |ps| - 1
      ensures PieceOk(ps[1..], i)
    {
      assert PieceOk(ps, i + 1);
    }
  }

  function Print(ps: seq<Piece>): string {
    if ps == [] then "" else Spell(ps[0].tok) + (ps[0].gap + Print(ps[1..]))
  }

  function Tokens(ps: seq<Piece>): seq<Tok> {
    if ps == [] then [] else [ps[0].tok] + Tokens(ps[1..])
  }

  lemma {:induction false} LexSkipsSpace(gap: string, rest: string)
    requires AllSpace(gap)
    ensures Lex(gap + rest) == Lex(rest)
  {
    if gap == "" {
      assert gap + rest == rest;
    } else {
      assert (gap + rest)[1..] == gap[1..] + rest;
      LexSkipsSpace(gap[1..], rest);
    }
  }

  lemma {:induction false} WordLengthOf(w: string, rest: string)
    requires (forall k :: 0 <= k < |w| ==> !IsDelimiter(w[k])) && (rest != "" ==> IsDelimiter(rest[0]))
    ensures WordLength(w + rest) == |w|
  {
    if w == "" {
      assert w + rest == rest;
    } else {
      assert (w + rest)[1..] == w[1..] + rest;
      WordLengthOf(w[1..], rest);
    }
  }

  lemma {:induction false} QuoteLengthOf(v: string, rest: string)
    requires '"' !in v
    ensures QuoteLength(v + ("\"" + rest)) == |v|
  {
    if v == "" {
      assert v + ("\"" + rest) == "\"" + rest;
    } else {
      assert (v + ("\"" + rest))[1..] == v[1..] + ("\"" + rest);
      QuoteLengthOf(v[1..], rest);
    }
  }

  lemma LexWord(w: string, rest: string)
    requires IsBareWord(w) && (rest != "" ==> IsDelimiter(rest[0]))
    ensures Lex(w + rest) == [Word(w)] + Lex(rest)
  {
    var s := w + rest;
    WordLengthOf(w, rest);
    assert s[..|w|] == w && s[|w|..] == rest && !IsDelimiter(w[0]) && s[0] == w[0];
  }

  lemma LexQuoted(v: string, rest: string)
    requires '"' !in v
    ensures Lex("\"" + (v + ("\"" + rest))) == [Quoted(v)] + Lex(rest)
  {
    var inner := v + ("\"" + rest);
    var s := "\"" + inner;
    QuoteLengthOf(v, rest);
    assert s[1..] == inner && s[1..|v| + 1] == v && s[|v| + 2..] == rest;
  }

  lemma LexParens(rest: string)
    ensures Lex("(" + rest) == [Open] + Lex(rest) && Lex(")" + rest) == [Close] + Lex(rest)
  {
    assert ("(" + rest)[1..] == rest && (")" + rest)[1..] == rest;
  }

  lemma SpellQuoted(v: string, rest: string)
    ensures Spell(Quoted(v)) + rest == "\"" + (v + ("\"" + rest))
  {
  }

  lemma LexOneToken(t: Tok, rest: string)
    requires TokOk(t) && (t.Word? && rest != "" ==> IsDelimiter(rest[0]))
    ensures Lex(Spell(t) + rest) == [t] + Lex(rest)
  {
    match t
    case Word(w) => LexWord(w, rest);
    case Quoted(v) =>
      SpellQuoted(v, rest);
      LexQuoted(v, rest);
    case Open => LexParens(rest);
    case Close => LexParens(rest);
  }

  lemma AfterToken(ps: seq<Piece>)
    requires LayoutOk(ps) && ps != [] && ps[0].tok.Word?
    ensures var rest := ps[0].gap + Print(ps[1..]); rest != "" ==> IsDelimiter(rest[0])
  {
    assert PieceOk(ps, 0);
    if ps[0].gap == "" && |ps| > 1 {
      var next := Spell(ps[1].tok);
      assert !ps[1].tok.Word? && next != "" && IsDelimiter(next[0]);
      assert ps[1..][0] == ps[1];
      assert ps[0].gap + Print(ps[1..]) == next + (ps[1].gap + Print(ps[1..][1..]));
    }
  }

  /** Lexing inverts printing for every layout and every legal token list. */
  lemma {:induction false} LexPrinted(ps: seq<Piece>)
    requires LayoutOk(ps)
    ensures Lex(Print(ps)) == Tokens(ps)
  {
    if ps != [] {
      var p := ps[0];
      assert PieceOk(ps, 0);
      if p.tok.Word? {
        AfterToken(ps);
      }
      LayoutTail(ps);
      LexOneToken(p.tok, p.gap + Print(ps[1..]));
      LexSkipsSpace(p.gap, Print(ps[1..]));
      LexPrinted(ps[1..]);
    }
  }

  // ---------- Trees of blocks: the reader inverts flattening ----------

  datatype Node = Scalar(key: string, val: string, quoted: bool) | Sub(key: string, children: seq<Node>)

  function NodeToks(n: Node): seq<Tok>
    decreases n
  {
    match n
    case Scalar(key, val, quoted) => [Word(key), if quoted then Quoted(val) else Word(val)]
    case Sub(key, children) => [Word(key), Open] + (Flatten(children) + [Close])
  }

  function Flatten(ns: seq<Node>): seq<Tok>
    decreases ns
  {
    if ns == [] then [] else NodeToks(ns[0]) + Flatten(ns[1..])
  }

  function DenoteNode(blk: Block, n: Node): Block
    decreases n
  {
    match n
    case Scalar(key, val, _) => blk.WithScalar(Lower(key), val)
    case Sub(key, children) => blk.WithSub(Lower(key), Denote(EMPTY, children))
  }

  /** The block a list of nodes denotes, on top of `blk`. */
  function Denote(blk: Block, ns: seq<Node>): Block
    decreases ns
  {
    if ns == [] then blk else Denote(DenoteNode(blk, ns[0]), ns[1..])
  }

  lemma AtTwo(toks: seq<Tok>, i: nat, a: Tok, b: Tok)
    requires At(toks, i, [a, b])
    ensures i + 2 <= |toks| && toks[i] == a && toks[i + 1] == b
  {
    assert toks[i] == toks[i..i + 2][0] && toks[i + 1] == toks[i..i + 2][1];
  }

  lemma ReadStep(toks: seq<Tok>, i: nat, blk: Block)
    requires i + 1 < |toks| && toks[i].Word? && !toks[i + 1].Close?
    ensures ReadItems(toks, i, blk) ==
            if toks[i + 1].Open? then
              var (sub, next) := ReadItems(toks, i + 2, EMPTY);
              ReadItems(toks, next, blk.WithSub(Lower(toks[i].val), sub))
            else ReadItems(toks, i + 2, blk.WithScalar(Lower(toks[i].val), toks[i + 1].val))
  {
  }

  lemma {:induction false} ReadNode(toks: seq<Tok>, i: nat, n: Node, blk: Block)
    requires At(toks, i, NodeToks(n))
    ensures ReadItems(toks, i, blk) == ReadItems(toks, i + |NodeToks(n)|, DenoteNode(blk, n))
    decreases n
  {
    match n
    case Scalar(key, val, quoted) => AtTwo(toks, i, Word(key), if quoted then Quoted(val) else Word(val));
    case Sub(key, children) => ReadSub(toks, i, key, children);
    ReadStep(toks, i, blk);
  }

  /** The tokens of a block: its word, its paren, its nodes, and the closing paren at `end`. */
  lemma SubAt(toks: seq<Tok>, i: nat, key: string, children: seq<Node>) returns (end: nat)
    requires At(toks, i, NodeToks(Sub(key, children)))
    ensures end == i + 2 + |Flatten(children)| && end + 1 == i + |NodeToks(Sub(key, children))|
    ensures end < |toks| && toks[i] == Word(key) && toks[i + 1] == Open && toks[end] == Close
    ensures At(toks, i + 2, Flatten(children))
  {
    end := i + 2 + |Flatten(children)|;
    AtSplit(toks, i, [Word(key), Open], Flatten(children) + [Close]);
    AtTwo(toks, i, Word(key), Open);
    AtSplit(toks, i + 2, Flatten(children), [Close]);
    assert toks[end] == toks[end..end + 1][0];
  }

  lemma {:induction false} ReadSub(toks: seq<Tok>, i: nat, key: string, children: seq<Node>)
    requires At(toks, i, NodeToks(Sub(key, children)))
    ensures i + 3 <= |toks| && toks[i] == Word(key) && toks[i + 1] == Open
    ensures ReadItems(toks, i + 2, EMPTY) == (Denote(EMPTY, children), i + |NodeToks(Sub(key, children))|)
    decreases children, 1
  {
    var end := SubAt(toks, i, key, children);
    ReadNodes(toks, i + 2, children, EMPTY);
    assert ReadItems(toks, end, Denote(EMPTY, children)) == (Denote(EMPTY, children), end + 1);
  }

  lemma FlattenAt(toks: seq<Tok>, i: nat, ns: seq<Node>) returns (next: nat)
    requires ns != [] && At(toks, i, Flatten(ns))
    ensures next == i + |NodeToks(ns[0])| && next + |Flatten(ns[1..])| == i + |Flatten(ns)|
    ensures At(toks, i, NodeToks(ns[0])) && At(toks, next, Flatten(ns[1..]))
  {
    next := i + |NodeToks(ns[0])|;
    AtSplit(toks, i, NodeToks(ns[0]), Flatten(ns[1..]));
  }

  /** Reading the tokens of a node list adds exactly those nodes to the block. */
  lemma {:induction false} ReadNodes(toks: seq<Tok>, i: nat, ns: seq<Node>, blk: Block)
    requires At(toks, i, Flatten(ns))
    ensures ReadItems(toks, i, blk) == ReadItems(toks, i + |Flatten(ns)|, Denote(blk, ns))
    decreases ns, 0
  {
    if ns != [] {
      var next := FlattenAt(toks, i, ns);
      ReadNode(toks, i, ns[0], blk);
      ReadNodes(toks, next, ns[1..], DenoteNode(blk, ns[0]));
    }
  }

  // ---------- What a tree says, without maps ----------

  /** The value of the first scalar called `key`. */
  function First(ns: seq<Node>, key: string): string {
    if ns == [] then ""
    else if ns[0].Scalar? && Lower(ns[0].key) == key then ns[0].val
    else First(ns[1..], key)
  }

  /** The contents of every sub-block called `key`, in order. */
  function Named(ns: seq<Node>, key: string): seq<seq<Node>> {
    if ns == [] then []
    else if ns[0].Sub? && Lower(ns[0].key) == key then [ns[0].children] + Named(ns[1..], key)
    else Named(ns[1..], key)
  }

  function DenoteAll(nss: seq<seq<Node>>): seq<Block> {
    if nss == [] then [] else [Denote(EMPTY, nss[0])] + DenoteAll(nss[1..])
  }

  lemma {:induction false} DenoteStr(blk: Block, ns: seq<Node>, key: string)
    ensures Denote(blk, ns).Str(key) == if key in blk.scalars then blk.scalars[key] else First(ns, key)
    decreases ns
  {
    if ns != [] {
      match ns[0]
      case Scalar(k, val, _) => DenoteStr(blk.WithScalar(Lower(k), val), ns[1..], key);
      case Sub(k, children) => DenoteStr(blk.WithSub(Lower(k), Denote(EMPTY, children)), ns[1..], key);
    }
  }

  lemma {:induction false} DenoteBlocks(blk: Block, ns: seq<Node>, key: string)
    ensures Denote(blk, ns).Blocks(key) == blk.Blocks(key) + DenoteAll(Named(ns, key))
    decreases ns
  {
    if ns != [] {
      match ns[0]
      case Scalar(k, val, _) => DenoteBlocks(blk.WithScalar(Lower(k), val), ns[1..], key);
      case Sub(k, children) =>
        var b := Denote(EMPTY, children);
        DenoteBlocks(blk.WithSub(Lower(k), b), ns[1..], key);
        Push(blk.Blocks(key), b, DenoteAll(Named(ns[1..], key)));
        assert ([children] + Named(ns[1..], key))[1..] == Named(ns[1..], key);
    }
  }

  function TreeHeader(ns: seq<Node>): Header {
    Header(First(ns, "name"), First(ns, "description"), First(ns, "version"), First(ns, "date"))
  }

  function TreeRom(ns: seq<Node>): Rom {
    Rom(First(ns, "name"), ParseInt(First(ns, "size")), NormHash(First(ns, "crc")),
        NormHash(First(ns, "md5")), NormHash(First(ns, "sha1")), First(ns, "serial"))
  }

  function TreeRoms(nss: seq<seq<Node>>): seq<Rom> {
    if nss == [] then []
    else if First(nss[0], "name") == "" then TreeRoms(nss[1..])
    else [TreeRom(nss[0])] + TreeRoms(nss[1..])
  }

  function TreeGame(ns: seq<Node>): Game {
    Game(First(ns, "name"), First(ns, "description"), First(ns, "cloneof"), First(ns, "region"),
         TreeRoms(Named(ns, "rom")))
  }

  /** A header under any of its three words, a named game under any of its three, nothing else. */
  function TreeAdd(file: File, word: string, ns: seq<Node>): File {
    if word in {"clrmamepro", "datafile", "header"} then file.(header := TreeHeader(ns))
    else if word in {"game", "machine", "set"} && First(ns, "name") != "" then
      file.(games := file.games + [TreeGame(ns)])
    else file
  }

  /** The catalogue a whole file says: the last header block, every named game in order. */
  function TreeFile(file: File, top: seq<Node>): File
    requires forall n :: n in top ==> n.Sub?
    decreases |top|
  {
    if top == [] then file else TreeFile(TreeAdd(file, Lower(top[0].key), top[0].children), top[1..])
  }

  lemma {:induction false} RomsSplit(a: seq<Block>, b: seq<Block>)
    ensures RomsOf(a + b) == RomsOf(a) + RomsOf(b)
  {
    if b == [] {
      assert a + b == a;
    } else {
      var c := b[..|b| - 1];
      assert (a + b)[..|a + b| - 1] == a + c;
      RomsSplit(a, c);
    }
  }

  lemma DenoteRom(ns: seq<Node>)
    ensures RomOf(Denote(EMPTY, ns)) == TreeRom(ns)
    ensures Denote(EMPTY, ns).Str("name") == First(ns, "name")
  {
    DenoteStr(EMPTY, ns, "name");
    DenoteStr(EMPTY, ns, "size");
    DenoteStr(EMPTY, ns, "crc");
    DenoteStr(EMPTY, ns, "md5");
    DenoteStr(EMPTY, ns, "sha1");
    DenoteStr(EMPTY, ns, "serial");
  }

  lemma {:induction false} DenoteRoms(nss: seq<seq<Node>>)
    ensures RomsOf(DenoteAll(nss)) == TreeRoms(nss)
  {
    if nss != [] {
      var b := Denote(EMPTY, nss[0]);
      RomsSplit([b], DenoteAll(nss[1..]));
      assert RomsOf([b]) == if First(nss[0], "name") == "" then [] else [TreeRom(nss[0])] by {
        assert [b][..0] == [];
        DenoteRom(nss[0]);
      }
      DenoteRoms(nss[1..]);
    }
  }

  lemma DenoteGame(ns: seq<Node>)
    ensures Denote(EMPTY, ns).Str("name") == First(ns, "name")
    ensures HeaderOf(Denote(EMPTY, ns)) == TreeHeader(ns)
    ensures GameOf(Denote(EMPTY, ns)) == TreeGame(ns)
  {
    DenoteStr(EMPTY, ns, "name");
    DenoteStr(EMPTY, ns, "description");
    DenoteStr(EMPTY, ns, "version");
    DenoteStr(EMPTY, ns, "date");
    DenoteStr(EMPTY, ns, "cloneof");
    DenoteStr(EMPTY, ns, "region");
    DenoteBlocks(EMPTY, ns, "rom");
    assert EMPTY.Blocks("rom") + DenoteAll(Named(ns, "rom")) == DenoteAll(Named(ns, "rom"));
    DenoteRoms(Named(ns, "rom"));
  }

  lemma ParseBlock(toks: seq<Tok>, i: nat, key: string, ns: seq<Node>, file: File, next: nat)
    requires At(toks, i, NodeToks(Sub(key, ns))) && next == i + |NodeToks(Sub(key, ns))|
    ensures i <= |toks| && next <= |toks|
    ensures ParseFrom(toks, i, file) == ParseFrom(toks, next, TreeAdd(file, Lower(key), ns))
  {
    ReadSub(toks, i, key, ns);
    DenoteGame(ns);
    ParseStep(toks, i, file, Denote(EMPTY, ns), next);
  }

  lemma ParseStep(toks: seq<Tok>, i: nat, file: File, body: Block, next: nat)
    requires i + 1 < |toks| && toks[i].Word? && toks[i + 1].Open? && ReadItems(toks, i + 2, EMPTY) == (body, next)
    ensures ParseFrom(toks, i, file) == ParseFrom(toks, next, AddBlock(file, Lower(toks[i].val), body))
  {
  }

  lemma {:induction false} ParseTree(toks: seq<Tok>, i: nat, top: seq<Node>, file: File)
    requires forall n :: n in top ==> n.Sub?
    requires At(toks, i, Flatten(top)) && i + |Flatten(top)| == |toks|
    ensures ParseFrom(toks, i, file) == TreeFile(file, top)
    decreases |top|
  {
    if top != [] {
      assert top[0] in top;
      var Sub(key, ns) := top[0];
      var next := FlattenAt(toks, i, top);
      ParseBlock(toks, i, key, ns, file, next);
      ParseTree(toks, next, top[1..], TreeAdd(file, Lower(key), ns));
    }
  }

  /** Printing any tree of blocks in any layout and parsing it gives what the tree says. */
  lemma PrintedTreeParses(lead: string, ps: seq<Piece>, top: seq<Node>)
    requires AllSpace(lead) && LayoutOk(ps) && Tokens(ps) == Flatten(top)
    requires forall n :: n in top ==> n.Sub?
    ensures var file := TreeFile(File(NO_HEADER, []), top);
            Parsed(lead + Print(ps)) == if file.header.name == "" && file.games == [] then None else Some(file)
  {
    LexSkipsSpace(lead, Print(ps));
    LexPrinted(ps);
    ParseTree(Tokens(ps), 0, top, File(NO_HEADER, []));
  }

  // ---------- Printing a catalogue ----------

  datatype Style = InQuotes | Bare | Omitted

  type Pair = (string, string)

  /** How a printer writes the value of a key. */
  type Styler = (string, string) -> Style

  /** An omitted value must be empty, a bare one a word, and none may hold a double quote. */
  ghost predicate StyleOk(style: Styler, p: Pair) {
    && '"' !in p.1
    && (style(p.0, p.1) == Omitted ==> p.1 == "")
    && (style(p.0, p.1) == Bare ==> IsBareWord(p.1))
  }

  function Fields(style: Styler, ps: seq<Pair>): seq<Node> {
    if ps == [] then []
    else (match style(ps[0].0, ps[0].1)
          case Omitted => []
          case Bare => [Scalar(ps[0].0, ps[0].1, false)]
          case InQuotes => [Scalar(ps[0].0, ps[0].1, true)])
         + Fields(style, ps[1..])
  }

  function HeaderPairs(h: Header): seq<Pair> {
    [("name", h.name), ("description", h.description), ("version", h.version), ("date", h.date)]
  }

  function RomPairs(r: Rom): seq<Pair>
    requires 0 <= r.size
  {
    [("name", r.name), ("size", Digits(r.size)), ("crc", r.crc), ("md5", r.md5), ("sha1", r.sha1), ("serial", r.serial)]
  }

  function GamePairs(g: Game): seq<Pair> {
    [("name", g.name), ("description", g.description), ("cloneof", g.cloneOf), ("region", g.region)]
  }

  ghost predicate PairsOk(style: Styler, ps: seq<Pair>) { forall p :: p in ps ==> StyleOk(style, p) }

  ghost predicate RomOk(style: Styler, r: Rom) {
    r.name != "" && 0 <= r.size <= MAX_INT64 && PairsOk(style, RomPairs(r))
  }

  ghost predicate RomsOk(style: Styler, roms: seq<Rom>) { forall r :: r in roms ==> RomOk(style, r) }

  ghost predicate GameOk(style: Styler, g: Game) {
    g.name != "" && PairsOk(style, GamePairs(g)) && RomsOk(style, g.roms)
  }

  ghost predicate GamesOk(style: Styler, games: seq<Game>) { forall g :: g in games ==> GameOk(style, g) }

  ghost function RomNodes(style: Styler, roms: seq<Rom>): seq<Node>
    requires RomsOk(style, roms)
  {
    if roms == [] then []
    else
      assert roms[0] in roms;
      [Sub("rom", Fields(style, RomPairs(roms[0])))] + RomNodes(style, roms[1..])
  }

  ghost function GameNodes(style: Styler, games: seq<Game>): seq<Node>
    requires GamesOk(style, games)
  {
    if games == [] then []
    else
      assert games[0] in games;
      [Sub("game", Fields(style, GamePairs(games[0])) + RomNodes(style, games[0].roms))] + GameNodes(style, games[1..])
  }

  ghost function FileNodes(style: Styler, f: File): seq<Node>
    requires PairsOk(style, HeaderPairs(f.header)) && GamesOk(style, f.games)
  {
    [Sub("clrmamepro", Fields(style, HeaderPairs(f.header)))] + GameNodes(style, f.games)
  }

  /** Hashes come back trimmed and lower-cased. */
  function NormRom(r: Rom): Rom { r.(crc := NormHash(r.crc), md5 := NormHash(r.md5), sha1 := NormHash(r.sha1)) }

  function NormRoms(roms: seq<Rom>): seq<Rom> {
    if roms == [] then [] else [NormRom(roms[0])] + NormRoms(roms[1..])
  }

  function NormGames(games: seq<Game>): seq<Game> {
    if games == [] then [] else [games[0].(roms := NormRoms(games[0].roms))] + NormGames(games[1..])
  }

  /** How a printed hash reads: without the white space at its ends, and A-Z moved 32 places to a-z. */
  ghost predicate HashRead(printed: string, read: string) {
    exists i, j :: 0 <= i <= j <= |printed| && HashSpan(printed, read, i, j)
  }

  ghost predicate HashSpan(printed: string, read: string, i: int, j: int)
    requires 0 <= i <= j <= |printed|
  {
    CutAt(printed, i, j) && |read| == j - i
    && forall k :: 0 <= k < |read| ==>
         read[k] as int == printed[i + k] as int + if 'A' <= printed[i + k] <= 'Z' then 32 else 0
  }

  /** Every field as printed, the three hashes as they read. */
  ghost predicate RomRead(printed: Rom, read: Rom) {
    && read == printed.(crc := read.crc, md5 := read.md5, sha1 := read.sha1)
    && HashRead(printed.crc, read.crc) && HashRead(printed.md5, read.md5) && HashRead(printed.sha1, read.sha1)
  }

  ghost predicate GameRead(printed: Game, read: Game) {
    && read == printed.(roms := read.roms) && |read.roms| == |printed.roms|
    && forall k :: 0 <= k < |read.roms| ==> RomRead(printed.roms[k], read.roms[k])
  }

  ghost predicate FileRead(printed: File, read: File) {
    && read.header == printed.header && |read.games| == |printed.games|
    && forall k :: 0 <= k < |read.games| ==> GameRead(printed.games[k], read.games[k])
  }

  /** A hash without white space at its ends comes back as long as it was, letter for letter. */
  lemma PlainHashRead(printed: string, read: string)
    requires HashRead(printed, read) && (printed != "" ==> !IsSpace(printed[0]) && !IsSpace(printed[|printed| - 1]))
    ensures |read| == |printed|
    ensures forall k :: 0 <= k < |read| ==>
              read[k] as int == printed[k] as int + if 'A' <= printed[k] <= 'Z' then 32 else 0
  {
    var i, j :| 0 <= i <= j <= |printed| && HashSpan(printed, read, i, j);
    assert i == 0 && j == |printed|;
  }

  lemma NormReads(s: string)
    ensures HashRead(s, NormHash(s))
  {
    TrimIff(s, Trim(s));
    var i, j :| 0 <= i <= j <= |s| && Trim(s) == s[i..j] && CutAt(s, i, j);
    forall k | 0 <= k < |NormHash(s)|
      ensures NormHash(s)[k] as int == s[i + k] as int + if 'A' <= s[i + k] <= 'Z' then 32 else 0
    {
      LowerAt(Trim(s), k);
    }
    assert HashSpan(s, NormHash(s), i, j);
  }

  lemma {:induction false} NormRomsRead(roms: seq<Rom>)
    ensures |NormRoms(roms)| == |roms|
    ensures forall k :: 0 <= k < |roms| ==> RomRead(roms[k], NormRoms(roms)[k])
  {
    if roms != [] {
      NormReads(roms[0].crc);
      NormReads(roms[0].md5);
      NormReads(roms[0].sha1);
      NormRomsRead(roms[1..]);
    }
  }

  lemma {:induction false} NormGamesRead(games: seq<Game>)
    ensures |NormGames(games)| == |games|
    ensures forall k :: 0 <= k < |games| ==> GameRead(games[k], NormGames(games)[k])
  {
    if games != [] {
      NormRomsRead(games[0].roms);
      NormGamesRead(games[1..]);
    }
  }

  ghost predicate KeysOk(ps: seq<Pair>) {
    && (forall i :: 0 <= i < |ps| ==> Lower(ps[i].0) == ps[i].0)
    && forall i, j :: 0 <= i < j < |ps| ==> ps[i].0 != ps[j].0
  }

  ghost predicate OnlySubs(ns: seq<Node>) { forall n :: n in ns ==> n.Sub? }

  lemma {:induction false} FirstOfSubs(ns: seq<Node>, key: string)
    requires OnlySubs(ns)
    ensures First(ns, key) == ""
  {
    if ns != [] {
      assert ns[0] in ns;
      FirstOfSubs(ns[1..], key);
    }
  }

  /** The value a list of pairs gives a key. */
  function ValueOf(ps: seq<Pair>, key: string): string {
    if ps == [] then "" else if ps[0].0 == key then ps[0].1 else ValueOf(ps[1..], key)
  }

  lemma {:induction false} ValueAt(ps: seq<Pair>, i: nat)
    requires KeysOk(ps) && i < |ps|
    ensures ValueOf(ps, ps[i].0) == ps[i].1
  {
    if i > 0 {
      assert ps[0].0 != ps[i].0;
      ValueAt(ps[1..], i - 1);
    }
  }

  lemma {:induction false} NoValue(ps: seq<Pair>, key: string)
    requires forall i :: 0 <= i < |ps| ==> ps[i].0 != key
    ensures ValueOf(ps, key) == ""
  {
    if ps != [] {
      NoValue(ps[1..], key);
    }
  }

  /** The first pair of a list, printed in front of the nodes of the others. */
  lemma FieldsStep(style: Styler, ps: seq<Pair>, tail: seq<Node>)
    requires ps != []
    ensures Fields(style, ps) + tail ==
            (if style(ps[0].0, ps[0].1) == Omitted then []
             else [Scalar(ps[0].0, ps[0].1, style(ps[0].0, ps[0].1) == InQuotes)]) + (Fields(style, ps[1..]) + tail)
  {
  }

  lemma FirstStep(n: Node, rest: seq<Node>, key: string)
    ensures First([n] + rest, key) == if n.Scalar? && Lower(n.key) == key then n.val else First(rest, key)
    ensures n.Scalar? ==> Named([n] + rest, key) == Named(rest, key)
  {
    assert ([n] + rest)[1..] == rest;
  }

  lemma {:induction false} FieldsFirst(style: Styler, ps: seq<Pair>, tail: seq<Node>, key: string)
    requires KeysOk(ps) && PairsOk(style, ps) && OnlySubs(tail)
    ensures First(Fields(style, ps) + tail, key) == ValueOf(ps, key)
    ensures Named(Fields(style, ps) + tail, key) == Named(tail, key)
  {
    if ps == [] {
      assert Fields(style, ps) + tail == tail;
      FirstOfSubs(tail, key);
    } else {
      var rest := Fields(style, ps[1..]) + tail;
      FieldsFirst(style, ps[1..], tail, key);
      FieldsStep(style, ps, tail);
      assert ps[0] in ps;
      if style(ps[0].0, ps[0].1) == Omitted {
        assert [] + rest == rest;
        NoValue(ps[1..], ps[0].0);
      } else {
        FirstStep(Scalar(ps[0].0, ps[0].1, style(ps[0].0, ps[0].1) == InQuotes), rest, key);
      }
    }
  }

  lemma LowerLiteral(s: string)
    requires forall k :: 0 <= k < |s| ==> !('A' <= s[k] <= 'Z')
    ensures Lower(s) == s
  {
  }

  lemma RomKeys(r: Rom)
    requires 0 <= r.size
    ensures KeysOk(RomPairs(r))
  {
    var ps := RomPairs(r);
    forall i | 0 <= i < |ps|
      ensures Lower(ps[i].0) == ps[i].0
    {
      LowerLiteral(ps[i].0);
    }
    assert "name"[0] == 'n' && "size"[1] == 'i' && "sha1"[1] == 'h' && "crc"[0] == 'c' && "md5"[0] == 'm';
  }

  lemma HeaderKeys(h: Header)
    ensures KeysOk(HeaderPairs(h))
  {
    var ps := HeaderPairs(h);
    forall i | 0 <= i < |ps|
      ensures Lower(ps[i].0) == ps[i].0
    {
      LowerLiteral(ps[i].0);
    }
    assert "name"[0] == 'n' && "date"[0] == 'd';
  }

  lemma GameKeys(g: Game)
    ensures KeysOk(GamePairs(g))
  {
    var ps := GamePairs(g);
    forall i | 0 <= i < |ps|
      ensures Lower(ps[i].0) == ps[i].0
    {
      LowerLiteral(ps[i].0);
    }
  }

  lemma RomRoundTrip(style: Styler, r: Rom)
    requires RomOk(style, r)
    ensures var ns := Fields(style, RomPairs(r));
            First(ns, "name") == r.name && TreeRom(ns) == NormRom(r)
  {
    var ps := RomPairs(r);
    var ns := Fields(style, ps);
    RomKeys(r);
    forall i | 0 <= i < |ps|
      ensures First(ns, ps[i].0) == ps[i].1
    {
      FieldsFirst(style, ps, [], ps[i].0);
      ValueAt(ps, i);
      assert ns + [] == ns;
    }
    assert First(ns, ps[0].0) == r.name && First(ns, ps[1].0) == Digits(r.size) && First(ns, ps[2].0) == r.crc
           && First(ns, ps[3].0) == r.md5 && First(ns, ps[4].0) == r.sha1 && First(ns, ps[5].0) == r.serial;
    ParseIntDigits(r.size);
  }

  lemma RomsStep(ns: seq<Node>, others: seq<Node>)
    requires First(ns, "name") != ""
    ensures TreeRoms(Named([Sub("rom", ns)] + others, "rom")) == [TreeRom(ns)] + TreeRoms(Named(others, "rom"))
  {
    LowerLiteral("rom");
    assert ([Sub("rom", ns)] + others)[1..] == others;
    assert ([ns] + Named(others, "rom"))[1..] == Named(others, "rom");
  }

  lemma {:induction false} RomsRoundTrip(style: Styler, roms: seq<Rom>)
    requires RomsOk(style, roms)
    ensures OnlySubs(RomNodes(style, roms))
    ensures TreeRoms(Named(RomNodes(style, roms), "rom")) == NormRoms(roms)
  {
    if roms != [] {
      assert roms[0] in roms;
      RomRoundTrip(style, roms[0]);
      RomsRoundTrip(style, roms[1..]);
      RomsStep(Fields(style, RomPairs(roms[0])), RomNodes(style, roms[1..]));
    }
  }

  lemma GameRoundTrip(style: Styler, g: Game)
    requires GameOk(style, g)
    ensures var ns := Fields(style, GamePairs(g)) + RomNodes(style, g.roms);
            First(ns, "name") == g.name && TreeGame(ns) == g.(roms := NormRoms(g.roms))
  {
    var ps, tail := GamePairs(g), RomNodes(style, g.roms);
    var ns := Fields(style, ps) + tail;
    GameKeys(g);
    RomsRoundTrip(style, g.roms);
    forall i | 0 <= i < |ps|
      ensures First(ns, ps[i].0) == ps[i].1
    {
      FieldsFirst(style, ps, tail, ps[i].0);
      ValueAt(ps, i);
    }
    FieldsFirst(style, ps, tail, "rom");
    assert First(ns, ps[0].0) == g.name && First(ns, ps[1].0) == g.description
           && First(ns, ps[2].0) == g.cloneOf && First(ns, ps[3].0) == g.region;
  }

  lemma HeaderRoundTrip(style: Styler, h: Header)
    requires PairsOk(style, HeaderPairs(h))
    ensures TreeHeader(Fields(style, HeaderPairs(h))) == h
  {
    var ps := HeaderPairs(h);
    var ns := Fields(style, ps);
    HeaderKeys(h);
    forall i | 0 <= i < |ps|
      ensures First(ns, ps[i].0) == ps[i].1
    {
      FieldsFirst(style, ps, [], ps[i].0);
      ValueAt(ps, i);
      assert ns + [] == ns;
    }
    assert First(ns, ps[0].0) == h.name && First(ns, ps[1].0) == h.description
           && First(ns, ps[2].0) == h.version && First(ns, ps[3].0) == h.date;
  }

  lemma {:induction false} GamesRoundTrip(style: Styler, games: seq<Game>, file: File)
    requires GamesOk(style, games)
    ensures OnlySubs(GameNodes(style, games))
    ensures TreeFile(file, GameNodes(style, games)) == file.(games := file.games + NormGames(games))
    decreases |games|
  {
    if games != [] {
      var g := games[0];
      assert g in games;
      GameRoundTrip(style, g);
      LowerLiteral("game");
      var g' := g.(roms := NormRoms(g.roms));
      GamesRoundTrip(style, games[1..], file.(games := file.games + [g']));
      Push(file.games, g', NormGames(games[1..]));
      assert "game"[0] == 'g' && |"game"| == 4;
    }
  }

  lemma HeaderThenGames(style: Styler, f: File)
    requires PairsOk(style, HeaderPairs(f.header)) && GamesOk(style, f.games)
    ensures OnlySubs(FileNodes(style, f))
    ensures TreeFile(File(NO_HEADER, []), FileNodes(style, f)) == f.(games := NormGames(f.games))
  {
    var top := FileNodes(style, f);
    LowerLiteral("clrmamepro");
    HeaderRoundTrip(style, f.header);
    GamesRoundTrip(style, f.games, File(f.header, []));
    assert top[1..] == GameNodes(style, f.games);
    assert [] + NormGames(f.games) == NormGames(f.games);
  }

  /** The round trip: any catalogue, written with any legal choice of quoting and any
      layout, lexes and parses back to itself, its hashes without outer white space and in lower case. */
  lemma CatalogueRoundTrip(style: Styler, f: File, lead: string, ps: seq<Piece>)
    requires PairsOk(style, HeaderPairs(f.header)) && GamesOk(style, f.games)
    requires f.header.name != "" || f.games != []
    requires AllSpace(lead) && LayoutOk(ps) && Tokens(ps) == Flatten(FileNodes(style, f))
    ensures Parsed(lead + Print(ps)).Some? && FileRead(f, Parsed(lead + Print(ps)).value)
  {
    var top := FileNodes(style, f);
    var read := f.(games := NormGames(f.games));
    HeaderThenGames(style, f);
    assert read.games != [] <==> f.games != [];
    PrintedTreeParses(lead, ps, top);
    NormGamesRead(f.games);
  }
}

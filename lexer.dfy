/** The lexer of src/Lexer/Lexer.cpp. It walks a NUL-terminated buffer of
    characters and, on each call of `next`, skips blanks and `#` comments
    and forms one token.

    The buffer is a `string`; reading at or past its end gives NUL, the C
    terminator, and so does a NUL inside it. The position is the distance
    of `BufferPtr` from the start of the buffer. */
module Lexer {
  import opened Basics

  /** The token kinds `next` produces. */
  datatype TokenKind =
    | Identifier | Number
    | KwIf | KwElse | KwFor | KwWhile | KwReturn | KwInteger
    | Equal | NotEqual | LessEq | GreaterEq | Or | And
    | Assign | Plus | Minus | Star | Slash | Percent | Less | Greater
    | LParen | RParen | LFigure | RFigure | LSquare | RSquare
    | Comma | Colon | Semicolon
    | EOI | Unknown

  /** `Token`: its kind and the text it was formed from. */
  datatype Token = Token(kind: TokenKind, text: string)

  const NUL: char := '\0'

  /** The character `BufferPtr` points at. */
  function At(b: string, p: nat): char {
    if p < |b| then b[p] else NUL
  }

  /** `charinfo::isWhitespace`. */
  predicate IsWhitespace(c: char) {
    c == ' ' || c == '\t' || c == '\U{C}' || c == '\U{B}' || c == '\r' || c == '\n'
  }

  /** `charinfo::isDigit`. */
  predicate IsDigit(c: char) {
    '0' <= c <= '9'
  }

  /** `charinfo::isLetter`: ASCII letters only. */
  predicate IsLetter(c: char) {
    ('a' <= c <= 'z') || ('A' <= c <= 'Z')
  }

  /** A character that continues an identifier. */
  predicate IsWordChar(c: char) {
    IsLetter(c) || IsDigit(c) || c == '_'
  }

  // ----- Scanning -----

  /** The end of the run of whitespace starting at `p`. */
  function SkipWhitespace(b: string, p: nat): (r: nat)
    requires p <= |b|
    ensures p <= r <= |b|
    ensures forall k :: p <= k < r ==> IsWhitespace(b[k])
    ensures At(b, r) == NUL || !IsWhitespace(At(b, r))
    decreases |b| - p
  {
    if At(b, p) != NUL && IsWhitespace(At(b, p)) then SkipWhitespace(b, p + 1) else p
  }

  /** The end of the comment text starting at `p`: the next newline or the
      end of the input. */
  function SkipLine(b: string, p: nat): (r: nat)
    requires p <= |b|
    ensures p <= r <= |b|
    ensures forall k :: p <= k < r ==> b[k] != '\n' && b[k] != NUL
    ensures At(b, r) == NUL || At(b, r) == '\n'
    decreases |b| - p
  {
    if At(b, p) != NUL && At(b, p) != '\n' then SkipLine(b, p + 1) else p
  }

  /** Skips one comment and the blanks after it for as long as a comment
      starts at the position. */
  function SkipComments(b: string, p: nat): (r: nat)
    requires p <= |b|
    requires At(b, p) == NUL || !IsWhitespace(At(b, p))
    ensures p <= r <= |b|
    ensures At(b, r) == NUL || (!IsWhitespace(At(b, r)) && At(b, r) != '#')
    decreases |b| - p
  {
    if At(b, p) == '#' then SkipComments(b, SkipWhitespace(b, SkipLine(b, p))) else p
  }

  /** Where the next token starts: blanks and comments are skipped. */
  function SkipBlank(b: string, p: nat): (r: nat)
    requires p <= |b|
    ensures p <= r <= |b|
    ensures At(b, r) == NUL || (!IsWhitespace(At(b, r)) && At(b, r) != '#')
  {
    SkipComments(b, SkipWhitespace(b, p))
  }

  /** The end of the identifier characters starting at `p`. */
  function WordEnd(b: string, p: nat): (r: nat)
    requires p <= |b|
    ensures p <= r <= |b|
    ensures forall k :: p <= k < r ==> IsWordChar(b[k])
    ensures !IsWordChar(At(b, r))
    decreases |b| - p
  {
    if IsWordChar(At(b, p)) then WordEnd(b, p + 1) else p
  }

  /** The end of the digits starting at `p`. */
  function DigitsEnd(b: string, p: nat): (r: nat)
    requires p <= |b|
    ensures p <= r <= |b|
    ensures forall k :: p <= k < r ==> IsDigit(b[k])
    ensures !IsDigit(At(b, r))
    decreases |b| - p
  {
    if IsDigit(At(b, p)) then DigitsEnd(b, p + 1) else p
  }

  /** The position of the closing quote, or of the end of the input. */
  function QuoteEnd(b: string, p: nat): (r: nat)
    requires p <= |b|
    ensures p <= r <= |b|
    ensures forall k :: p <= k < r ==> b[k] != '"' && b[k] != NUL
    ensures At(b, r) == NUL || At(b, r) == '"'
    decreases |b| - p
  {
    if At(b, p) != NUL && At(b, p) != '"' then QuoteEnd(b, p + 1) else p
  }

  /** The keywords; any other word is an identifier. */
  function KeywordKind(name: string): TokenKind {
    if name == "if" then KwIf
    else if name == "else" then KwElse
    else if name == "for" then KwFor
    else if name == "while" then KwWhile
    else if name == "return" then KwReturn
    else if name == "integer" then KwInteger
    else Identifier
  }

  /** The two-character operators. */
  function TwoCharKind(c: char, d: char): Option<TokenKind> {
    if c == '=' && d == '=' then Some(Equal)
    else if c == '<' && d == '=' then Some(LessEq)
    else if c == '>' && d == '=' then Some(GreaterEq)
    else if c == '!' && d == '=' then Some(NotEqual)
    else if c == '|' && d == '|' then Some(Or)
    else if c == '&' && d == '&' then Some(And)
    else None
  }

  /** The one-character tokens; any other character is `Unknown`. */
  function OneCharKind(c: char): TokenKind {
    match c
    case '=' => Assign
    case '+' => Plus
    case '-' => Minus
    case '*' => Star
    case '/' => Slash
    case '%' => Percent
    case '<' => Less
    case '>' => Greater
    case '(' => LParen
    case ')' => RParen
    case '{' => LFigure
    case '}' => RFigure
    case '[' => LSquare
    case ']' => RSquare
    case ',' => Comma
    case ':' => Colon
    case ';' => Semicolon
    case _ => Unknown
  }

  /** One call of `next` from position `p`: the token's kind, where its
      text starts and ends, and where the lexer stops. */
  datatype Lexed = Lexed(kind: TokenKind, start: nat, end: nat, next: nat)

  function Scan(b: string, p: nat): Lexed
    requires p <= |b|
  {
    TokenAt(b, SkipBlank(b, p))
  }

  /** The token formed at `q`, where blanks and comments have been skipped. */
  function TokenAt(b: string, q: nat): Lexed
    requires q <= |b|
  {
    var c := At(b, q);
    if c == NUL then Lexed(EOI, q, q, q)
    else if IsLetter(c) then
      var e := WordEnd(b, q + 1);
      Lexed(KeywordKind(b[q..e]), q, e, e)
    else if IsDigit(c) then
      var e := DigitsEnd(b, q + 1);
      Lexed(Number, q, e, e)
    else if c == '"' then
      var e := QuoteEnd(b, q + 1);
      if At(b, e) == '"' then Lexed(Identifier, q + 1, e, e + 1)
      else Lexed(Unknown, q, q + 1, q + 1)
    else if TwoCharKind(c, At(b, q + 1)).Some? then
      Lexed(TwoCharKind(c, At(b, q + 1)).value, q, q + 2, q + 2)
    else Lexed(OneCharKind(c), q, q + 1, q + 1)
  }

  // ----- What a call of `next` produces -----

  /** The end of the input gives `EOI` without moving on; every other token
      consumes at least one character, and its text lies inside what was
      consumed. */
  lemma ScanProgress(b: string, p: nat)
    requires p <= |b|
    ensures var r := Scan(b, p);
      (r.kind == EOI <==> At(b, SkipBlank(b, p)) == NUL) &&
      (r.kind == EOI ==> r.next == SkipBlank(b, p)) &&
      (r.kind != EOI ==> p < r.next) &&
      SkipBlank(b, p) <= r.start <= r.end <= r.next <= |b|
  {
  }

  /** A word is the longest run of letters, digits and underscores starting
      with a letter; it is a keyword exactly when it spells one. */
  lemma ScanWord(b: string, p: nat)
    requires p <= |b| && IsLetter(At(b, SkipBlank(b, p)))
    ensures var r := Scan(b, p);
      var text := b[r.start..r.end];
      r.start == SkipBlank(b, p) && r.next == r.end && |text| > 0 &&
      (forall k :: 0 <= k < |text| ==> IsWordChar(text[k])) && !IsWordChar(At(b, r.end)) &&
      r.kind == KeywordKind(text) &&
      (r.kind == Identifier <==> text !in {"if", "else", "for", "while", "return", "integer"})
  {
  }

  /** A number is the longest run of digits. */
  lemma ScanNumber(b: string, p: nat)
    requires p <= |b| && IsDigit(At(b, SkipBlank(b, p)))
    ensures var r := Scan(b, p);
      var text := b[r.start..r.end];
      r.kind == Number && r.start == SkipBlank(b, p) && r.next == r.end && |text| > 0 &&
      (forall k :: 0 <= k < |text| ==> IsDigit(text[k])) && !IsDigit(At(b, r.end))
  {
  }

  /** A quoted string is an identifier whose text is what lies between the
      quotes, and the lexer moves past the closing quote; a quote never
      closed is a one-character `Unknown`. */
  lemma ScanString(b: string, p: nat)
    requires p <= |b| && At(b, SkipBlank(b, p)) == '"'
    ensures var q := SkipBlank(b, p);
      var r := Scan(b, p);
      if exists k :: q < k < |b| && b[k] == '"' && forall j :: q < j < k ==> b[j] != NUL then
        r.kind == Identifier && r.start == q + 1 && At(b, r.end) == '"' && r.next == r.end + 1 &&
        forall k :: r.start <= k < r.end ==> b[k] != '"'
      else
        r.kind == Unknown && r.start == q && r.end == r.next == q + 1
  {
    var q := SkipBlank(b, p);
    var e := QuoteEnd(b, q + 1);
    if exists k :: q < k < |b| && b[k] == '"' && forall j :: q < j < k ==> b[j] != NUL {
      var k :| q < k < |b| && b[k] == '"' && forall j :: q < j < k ==> b[j] != NUL;
      assert e <= k;
    }
  }

  /** `==`, `<=`, `>=`, `!=`, `||` and `&&` are read as one token, never as
      two; any other character is a token of its own. */
  lemma ScanOperator(b: string, p: nat)
    requires p <= |b|
    requires var c := At(b, SkipBlank(b, p));
      c != NUL && !IsLetter(c) && !IsDigit(c) && c != '"'
    ensures var q := SkipBlank(b, p);
      var r := Scan(b, p);
      r.start == q &&
      (TwoCharKind(b[q], At(b, q + 1)).Some? ==> r.kind == TwoCharKind(b[q], b[q + 1]).value && r.end == r.next == q + 2) &&
      (TwoCharKind(b[q], At(b, q + 1)).None? ==> r.kind == OneCharKind(b[q]) && r.end == r.next == q + 1) &&
      (r.kind == Unknown <==> TwoCharKind(b[q], At(b, q + 1)).None? && b[q] !in "=+-*/%<>(){}[],:;")
  {
  }

  // ----- The lexer object -----

  class Lexer {
    const buffer: string
    /** `BufferPtr - BufferStart`. */
    var pos: nat

    constructor(buffer: string)
      ensures this.buffer == buffer && pos == 0
    {
      this.buffer := buffer;
      pos := 0;
    }

    /** `formToken`: the token of the given kind whose text runs from the
        current position to `tokEnd`, where the lexer then stands. */
    method FormToken(tokEnd: nat, kind: TokenKind) returns (t: Token)
      requires pos <= tokEnd <= |buffer|
      modifies this
      ensures t == Token(kind, buffer[old(pos)..tokEnd]) && pos == tokEnd
    {
      t := Token(kind, buffer[pos..tokEnd]);
      pos := tokEnd;
    }

    /** The whitespace-skipping loops of `next`. */
    method SkipSpaces()
      requires pos <= |buffer|
      modifies this
      ensures pos == SkipWhitespace(buffer, old(pos))
    {
      while At(buffer, pos) != NUL && IsWhitespace(At(buffer, pos))
        invariant old(pos) <= pos <= |buffer|
        invariant SkipWhitespace(buffer, old(pos)) == SkipWhitespace(buffer, pos)
        decreases |buffer| - pos
      {
        pos := pos + 1;
      }
    }

    /** The loop of `next` that skips a comment up to its newline. */
    method SkipComment()
      requires pos <= |buffer|
      modifies this
      ensures pos == SkipLine(buffer, old(pos))
    {
      while At(buffer, pos) != NUL && At(buffer, pos) != '\n'
        invariant old(pos) <= pos <= |buffer|
        invariant SkipLine(buffer, old(pos)) == SkipLine(buffer, pos)
        decreases |buffer| - pos
      {
        pos := pos + 1;
      }
    }

    /** The blank and comment skipping at the start of `next`. */
    method SkipBlanks()
      requires pos <= |buffer|
      modifies this
      ensures pos == SkipBlank(buffer, old(pos))
    {
      SkipSpaces();
      while At(buffer, pos) == '#'
        invariant pos <= |buffer|
        invariant At(buffer, pos) == NUL || !IsWhitespace(At(buffer, pos))
        invariant SkipBlank(buffer, old(pos)) == SkipComments(buffer, pos)
        decreases |buffer| - pos
      {
        SkipComment();
        SkipSpaces();
      }
    }

    /** An identifier or a keyword. */
    method LexWord() returns (r: Token)
      requires pos < |buffer| && IsLetter(buffer[pos])
      modifies this
      ensures var l := TokenAt(buffer, old(pos));
        pos == l.next && r == Token(l.kind, buffer[l.start..l.end])
    {
      var end := pos + 1;
      while IsWordChar(At(buffer, end))
        invariant pos < end <= |buffer|
        invariant WordEnd(buffer, pos + 1) == WordEnd(buffer, end)
        decreases |buffer| - end
      {
        end := end + 1;
      }
      r := FormToken(end, KeywordKind(buffer[pos..end]));
    }

    /** A number. */
    method LexNumber() returns (r: Token)
      requires pos < |buffer| && IsDigit(buffer[pos])
      modifies this
      ensures var l := TokenAt(buffer, old(pos));
        pos == l.next && r == Token(l.kind, buffer[l.start..l.end])
    {
      var end := pos + 1;
      while IsDigit(At(buffer, end))
        invariant pos < end <= |buffer|
        invariant DigitsEnd(buffer, pos + 1) == DigitsEnd(buffer, end)
        decreases |buffer| - end
      {
        end := end + 1;
      }
      r := FormToken(end, Number);
    }

    /** A quoted string, or a lone quote. */
    method LexString() returns (r: Token)
      requires pos < |buffer| && buffer[pos] == '"'
      modifies this
      ensures var l := TokenAt(buffer, old(pos));
        pos == l.next && r == Token(l.kind, buffer[l.start..l.end])
    {
      var end := pos + 1;
      while At(buffer, end) != NUL && At(buffer, end) != '"'
        invariant pos < end <= |buffer|
        invariant QuoteEnd(buffer, pos + 1) == QuoteEnd(buffer, end)
        decreases |buffer| - end
      {
        end := end + 1;
      }
      if At(buffer, end) == '"' {
        pos := pos + 1;
        r := FormToken(end, Identifier);
        pos := end + 1;
      } else {
        r := FormToken(pos + 1, Unknown);
      }
    }

    /** An operator or punctuation character, or an unknown character. */
    method LexOperator() returns (r: Token)
      requires pos < |buffer|
      requires var c := buffer[pos]; c != NUL && !IsLetter(c) && !IsDigit(c) && c != '"'
      modifies this
      ensures var l := TokenAt(buffer, old(pos));
        pos == l.next && r == Token(l.kind, buffer[l.start..l.end])
    {
      var c := buffer[pos];
      var two := TwoCharKind(c, At(buffer, pos + 1));
      if two.Some? {
        r := FormToken(pos + 2, two.value);
      } else {
        r := FormToken(pos + 1, OneCharKind(c));
      }
    }

    /** `next`: skips blanks and comments and forms the next token. At the
        end of the input only the kind of the caller's token changes. */
    method Next(token: Token) returns (r: Token)
      requires pos <= |buffer|
      modifies this
      ensures var l := Scan(buffer, old(pos));
        pos == l.next &&
        r == if l.kind == EOI then token.(kind := EOI) else Token(l.kind, buffer[l.start..l.end])
    {
      SkipBlanks();
      var c := At(buffer, pos);
      if c == NUL {
        r := token.(kind := EOI);
      } else if IsLetter(c) {
        r := LexWord();
      } else if IsDigit(c) {
        r := LexNumber();
      } else if c == '"' {
        r := LexString();
      } else {
        r := LexOperator();
      }
    }
  }
}

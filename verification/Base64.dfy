/**
  Base64 with wrapped, indented lines (common/base64.c).  Shifts and masks of bytes are written as
  division, remainder and multiplication.
 */
module Base64 {
  import opened Common

  type Octet = x: int | 0 <= x < 256

  type Sextet = x: int | 0 <= x < 64

  /* ----- The alphabet ----- */

  // A to Z, a to z, 0 to 9, plus and slash, in this order.
  function Symbol(v: Sextet): char {
    if v < 26 then (v + 65) as char
    else if v < 52 then (v - 26 + 97) as char
    else if v < 62 then (v - 52 + 48) as char
    else if v == 62 then '+' else '/'
  }

  // What one character of the text adds to the values read.
  function ValueOf(c: char): (v: seq<Sextet>)
    ensures |v| <= 1
  {
    if 'A' <= c <= 'Z' then [c as int - 'A' as int]
    else if 'a' <= c <= 'z' then [c as int - 'a' as int + 26]
    else if '0' <= c <= '9' then [c as int - '0' as int + 52]
    else if c == '+' then [62]
    else if c == '/' then [63]
    else []
  }

  lemma {:induction false} SymbolValue(v: Sextet)
    ensures ValueOf(Symbol(v)) == [v] && Symbol(v) != '=' && Symbol(v) != '\0'
  {
  }

  // Table 1 of RFC 4648, letter by letter.
  lemma {:induction false} Capitals()
    ensures [Symbol(0), Symbol(1), Symbol(2), Symbol(3), Symbol(4), Symbol(5)] == "ABCDEF"
    ensures [Symbol(6), Symbol(7), Symbol(8), Symbol(9), Symbol(10), Symbol(11), Symbol(12)] == "GHIJKLM"
    ensures [Symbol(13), Symbol(14), Symbol(15), Symbol(16), Symbol(17), Symbol(18)] == "NOPQRS"
    ensures [Symbol(19), Symbol(20), Symbol(21), Symbol(22), Symbol(23), Symbol(24), Symbol(25)] == "TUVWXYZ"
  {
  }

  lemma {:induction false} SmallLetters()
    ensures [Symbol(26), Symbol(27), Symbol(28), Symbol(29), Symbol(30), Symbol(31)] == "abcdef"
    ensures [Symbol(32), Symbol(33), Symbol(34), Symbol(35), Symbol(36), Symbol(37), Symbol(38)] == "ghijklm"
    ensures [Symbol(39), Symbol(40), Symbol(41), Symbol(42), Symbol(43), Symbol(44)] == "nopqrs"
    ensures [Symbol(45), Symbol(46), Symbol(47), Symbol(48), Symbol(49), Symbol(50), Symbol(51)] == "tuvwxyz"
  {
  }

  lemma {:induction false} DigitsAndSigns()
    ensures [Symbol(52), Symbol(53), Symbol(54), Symbol(55), Symbol(56), Symbol(57)] == "012345"
    ensures [Symbol(58), Symbol(59), Symbol(60), Symbol(61), Symbol(62), Symbol(63)] == "6789+/"
  {
  }

  /* ----- Three bytes are four symbols ----- */

  function Sextets3(a: Octet, b: Octet, c: Octet): (v: seq<Sextet>)
    ensures |v| == 4
  {
    [a / 4, a % 4 * 16 + b / 16, b % 16 * 4 + c / 64, c % 64]
  }

  function Sextets2(a: Octet, b: Octet): (v: seq<Sextet>)
    ensures |v| == 3
  {
    [a / 4, a % 4 * 16 + b / 16, b % 16 * 4]
  }

  function Sextets1(a: Octet): (v: seq<Sextet>)
    ensures |v| == 2
  {
    [a / 4, a % 4 * 16]
  }

  function First(v: seq<Sextet>): Octet requires |v| == 4 { v[0] as int * 4 % 256 + v[1] as int / 16 }

  function Second(v: seq<Sextet>): Octet requires |v| == 4 { v[1] as int % 16 * 16 + v[2] as int / 4 }

  function Third(v: seq<Sextet>): Octet requires |v| == 4 { v[2] as int % 4 * 64 + v[3] as int }

  // Four values and the three bytes they stand for are one number.
  lemma {:induction false} GroupNumber(a: Octet, b: Octet, c: Octet)
    ensures var v := Sextets3(a, b, c);
      ((v[0] as int * 64 + v[1] as int) * 64 + v[2] as int) * 64 + v[3] as int == (a as int * 256 + b as int) * 256 + c as int
    ensures Sextets2(a, b) == Sextets3(a, b, 0)[..3] && Sextets1(a) == Sextets3(a, 0, 0)[..2]
  {
  }

  lemma {:induction false} BytesNumber(v: seq<Sextet>)
    requires |v| == 4
    ensures (First(v) as int * 256 + Second(v) as int) * 256 + Third(v) as int
         == ((v[0] as int * 64 + v[1] as int) * 64 + v[2] as int) * 64 + v[3] as int
  {
  }

  function SymbolsOf(v: seq<Sextet>): (s: string)
    ensures |s| == |v|
  {
    seq(|v|, i requires 0 <= i < |v| => Symbol(v[i]))
  }

  // Section 4 of RFC 4648.
  function Symbols(data: seq<Octet>): (s: string)
    ensures |data| > 0 ==> |s| > 0
    decreases |data|
  {
    if |data| >= 3 then SymbolsOf(Sextets3(data[0], data[1], data[2])) + Symbols(data[3..])
    else if |data| == 2 then SymbolsOf(Sextets2(data[0], data[1])) + ['=']
    else if |data| == 1 then SymbolsOf(Sextets1(data[0])) + ['=', '=']
    else []
  }

  /* ----- Lines ----- */

  function Tabs(n: int): (t: string)
    ensures |t| == if n < 0 then 0 else n
  {
    if n <= 0 then [] else Tabs(n - 1) + ['\t']
  }

  // The symbols on the line after the n-th.
  function OnLine(n: nat, width: nat): nat { n % (width + 1) }

  // What follows the n-th symbol: a new line after every width + 1 of them.
  function LineEnd(n: nat, tabs: int, width: int): string {
    if width >= 0 && OnLine(n, width) == 0 then ['\n'] + Tabs(tabs) else []
  }

  function Lines(symbols: string, tabs: int, width: int): string {
    if symbols == [] then []
    else Lines(symbols[..|symbols| - 1], tabs, width) + [symbols[|symbols| - 1]] + LineEnd(|symbols|, tabs, width)
  }

  // The converted text: no line end follows the last padding symbol.
  function Text(data: seq<Octet>, tabs: int, width: int): string {
    var s := Symbols(data);
    Tabs(tabs) + (if |data| % 3 == 0 then Lines(s, tabs, width) else Lines(s[..|s| - 1], tabs, width) + ['=']) + ['\n']
  }

  /* ----- The growing buffer ----- */

  // The sizes a buffer of 100 bytes has when it doubles.
  predicate Doubled(n: int) { n == 100 || (n > 100 && n % 2 == 0 && Doubled(n / 2)) }

  lemma {:induction false} OneSize(n: int, size: int)
    requires Doubled(n) && Doubled(size) && n <= size && (size == 100 || size / 2 < n)
    ensures n == size
    decreases size
  {
    if size > 100 {
      OneSize(n / 2, size / 2);
    }
  }

  class Converter {
    const tabLength: int
    const width: int
    var buffer: string
    var bufferSize: nat
    var lineLength: nat
    ghost var within: bool
    ghost var symbols: string

    ghost predicate Valid() reads this {
      && bufferSize >= 100
      && lineLength == (if width >= 0 then OnLine(|symbols|, width) else |symbols|)
      && buffer == Tabs(tabLength) + Lines(symbols, tabLength, width)
    }

    // Up to the first symbol the buffer may be just full; from then on there is room, or a write went past the end.
    ghost predicate Room() reads this {
      if symbols == [] then within && |buffer| <= bufferSize && (|buffer| == bufferSize <==> Doubled(tabLength))
      else (within <==> !Doubled(tabLength)) && (within ==> |buffer| < bufferSize)
    }

    // The tabs of the first line: each write is checked before it.
    constructor (tabLength: int, width: int)
      ensures this.tabLength == tabLength && this.width == width
      ensures Valid() && Room() && symbols == []
    {
      this.tabLength, this.width := tabLength, width;
      buffer, bufferSize, lineLength := [], 100, 0;
      symbols, within := [], true;
      new;
      var i := 0;
      while i < tabLength
        invariant 0 <= i && (i > 0 ==> i <= tabLength) && buffer == Tabs(i) && |buffer| <= bufferSize
        invariant Doubled(bufferSize) && (bufferSize == 100 || bufferSize / 2 < |buffer|)
        invariant this.tabLength == tabLength && this.width == width && lineLength == 0 && symbols == [] && within
        decreases tabLength - i
      {
        CheckBufferSize();
        Put('\t');
        i := i + 1;
      }
      if Doubled(tabLength) {
        OneSize(tabLength, bufferSize);
      }
      NoLines(tabLength, width);
    }

    method Put(c: char)
      modifies this`buffer, this`within
      ensures buffer == old(buffer) + [c]
      ensures within == (old(within) && |old(buffer)| < bufferSize)
    {
      within := within && |buffer| < bufferSize;
      buffer := buffer + [c];
    }

    method CheckBufferSize()
      modifies this`bufferSize
      ensures bufferSize == if |buffer| == old(bufferSize) then 2 * old(bufferSize) else old(bufferSize)
    {
      if |buffer| == bufferSize {
        bufferSize := bufferSize * 2;
      }
    }

    // A symbol, and the end of the line after the last one of it.
    method PutSymbol(c: char)
      requires Valid() && Room()
      modifies this
      ensures Valid() && Room() && symbols == old(symbols) + [c]
    {
      hide *;
      Opened();
      OneMoreSymbol(symbols, c, tabLength, width);
      LineStep(|symbols|, lineLength, width, tabLength);
      Put(c);
      CheckBufferSize();
      if width == lineLength {
        EndLine();
        lineLength := 0;
      } else {
        lineLength := lineLength + 1;
      }
      symbols := symbols + [c];
      Closed();
    }

    // The end of a line and the tabs of the next.
    method EndLine()
      modifies this`buffer, this`bufferSize, this`within
      ensures buffer == old(buffer) + (['\n'] + Tabs(tabLength)) && bufferSize >= old(bufferSize)
      ensures |old(buffer)| < old(bufferSize) ==> |buffer| < bufferSize && within == old(within)
      ensures !old(within) ==> !within
    {
      hide *;
      Put('\n');
      CheckBufferSize();
      PutTabs();
    }

    lemma {:induction false} Closed()
      requires symbols != [] && (within <==> !Doubled(tabLength)) && (within ==> |buffer| < bufferSize) && bufferSize >= 100
      requires lineLength == if width >= 0 then OnLine(|symbols|, width) else |symbols|
      requires buffer == Tabs(tabLength) + Lines(symbols, tabLength, width)
      ensures Valid() && Room()
    {
    }

    lemma {:induction false} Opened()
      requires Valid() && Room()
      ensures lineLength == if width >= 0 then OnLine(|symbols|, width) else |symbols|
      ensures symbols == [] ==> (|buffer| == bufferSize <==> Doubled(tabLength))
      ensures buffer == Tabs(tabLength) + Lines(symbols, tabLength, width) && bufferSize >= 100
      ensures symbols == [] ==> within && |buffer| <= bufferSize
      ensures symbols != [] ==> (within <==> !Doubled(tabLength)) && (within ==> |buffer| < bufferSize)
    {
    }

    method PutTabs()
      modifies this`buffer, this`bufferSize, this`within
      ensures buffer == old(buffer) + Tabs(tabLength) && bufferSize >= old(bufferSize)
      ensures |old(buffer)| < old(bufferSize) ==> |buffer| < bufferSize && within == old(within)
      ensures !old(within) ==> !within
    {
      var j := 0;
      while j < tabLength
        invariant 0 <= j && (j > 0 ==> j <= tabLength) && buffer == old(buffer) + Tabs(j) && bufferSize >= old(bufferSize)
        invariant |old(buffer)| < old(bufferSize) ==> |buffer| < bufferSize && within == old(within)
        invariant !old(within) ==> !within
        decreases tabLength - j
      {
        Put('\t');
        CheckBufferSize();
        j := j + 1;
      }
    }
  }

  lemma {:induction false} NoLines(tabs: int, width: int)
    ensures Tabs(tabs) + Lines([], tabs, width) == Tabs(tabs)
  {
  }

  // The symbols on the line before and after one more.
  lemma {:induction false} LineStep(n: nat, lineLength: nat, width: int, tabs: int)
    requires lineLength == if width >= 0 then OnLine(n, width) else n
    ensures (if width == lineLength then 0 else lineLength + 1) == (if width >= 0 then OnLine(n + 1, width) else n + 1)
    ensures LineEnd(n + 1, tabs, width) == if width == lineLength then ['\n'] + Tabs(tabs) else []
  {
    hide OnLine;
    if width >= 0 {
      NextOnLine(n, width);
    }
  }

  lemma {:induction false} NextOnLine(n: nat, width: nat)
    ensures OnLine(n + 1, width) == if OnLine(n, width) == width then 0 else OnLine(n, width) + 1
  {
    var m, q, r := width + 1, n / (width + 1), n % (width + 1);
    assert n == q * m + r;
    if r == width {
      assert n + 1 == (q + 1) * m + 0;
      ModIs(n + 1, q + 1, m, 0);
    } else {
      ModIs(n + 1, q, m, r + 1);
    }
  }

  lemma {:induction false} OneMoreSymbol(symbols: string, c: char, tabs: int, width: int)
    ensures Lines(symbols + [c], tabs, width) == Lines(symbols, tabs, width) + [c] + LineEnd(|symbols| + 1, tabs, width)
  {
    assert (symbols + [c])[..|symbols|] == symbols;
  }

  /* ----- Encoding ----- */

  method ConvertBase64(data: seq<Octet>, tabLength: int, width: int) returns (text: string, ghost within: bool)
    ensures text == Text(data, tabLength, width) + ['\0']
    // A write passes the end of the buffer just when there is data and the tabs fill one of its sizes.
    ensures within <==> !(data != [] && Doubled(tabLength))
  {
    hide *;
    var out := new Converter(tabLength, width);
    var i: nat, dataLength: nat := 0, |data|;
    NoSymbols(data);
    while dataLength >= 3
      invariant i + dataLength == |data| && i % 3 == 0 && fresh(out)
      invariant out.Valid() && out.Room() && out.tabLength == tabLength && out.width == width
      invariant out.symbols + Symbols(data[i..]) == Symbols(data) && (out.symbols == [] <==> i == 0)
    {
      ThreeSymbols(data, i, out.symbols);
      dataLength := dataLength - 3;
      out.PutSymbol(Symbol(data[i] / 4));
      out.PutSymbol(Symbol(data[i] % 4 * 16 + data[i + 1] / 16));
      out.PutSymbol(Symbol(data[i + 1] % 16 * 4 + data[i + 2] / 64));
      out.PutSymbol(Symbol(data[i + 2] % 64));
      i := i + 3;
    }
    PutRest(out, data, i, dataLength);
    out.Opened();
    TextIs(data, out.symbols, tabLength, width);
    if dataLength > 0 {
      out.Put('=');
    }
    out.CheckBufferSize();
    out.Put('\n');
    out.CheckBufferSize();
    out.Put('\0');
    text, within := out.buffer, out.within;
  }

  // The symbols of the one or two bytes behind the last group, up to the last padding symbol.
  method PutRest(out: Converter, data: seq<Octet>, i: nat, dataLength: nat)
    requires i + dataLength == |data| && dataLength < 3 && i % 3 == 0
    requires out.Valid() && out.Room()
    requires out.symbols + Symbols(data[i..]) == Symbols(data) && (out.symbols == [] <==> i == 0)
    modifies out
    ensures out.Valid() && out.Room() && |data| % 3 == dataLength && (out.symbols == [] <==> data == [])
    ensures out.symbols == if |data| % 3 == 0 then Symbols(data) else Symbols(data)[..|Symbols(data)| - 1]
  {
    hide *;
    LastSymbols(data, i, dataLength, out.symbols);
    if dataLength == 2 {
      out.PutSymbol(Symbol(data[i] / 4));
      out.PutSymbol(Symbol(data[i] % 4 * 16 + data[i + 1] / 16));
      out.PutSymbol(Symbol(data[i + 1] % 16 * 4));
    } else if dataLength == 1 {
      out.PutSymbol(Symbol(data[i] / 4));
      out.PutSymbol(Symbol(data[i] % 4 * 16));
      out.PutSymbol('=');
    }
  }

  lemma {:induction false} NoSymbols(data: seq<Octet>)
    ensures [] + Symbols(data[0..]) == Symbols(data)
  {
    assert data[0..] == data;
  }

  lemma {:induction false} ThreeSymbols(data: seq<Octet>, i: nat, symbols: string)
    requires i + 3 <= |data|
    ensures data[i] as int % 4 * 16 + data[i + 1] as int / 16 < 64 && data[i + 1] as int % 16 * 4 + data[i + 2] as int / 64 < 64
    ensures symbols + [Symbol(data[i] / 4)] + [Symbol(data[i] as int % 4 * 16 + data[i + 1] as int / 16)]
      + [Symbol(data[i + 1] as int % 16 * 4 + data[i + 2] as int / 64)] + [Symbol(data[i + 2] % 64)] + Symbols(data[i + 3..])
      == symbols + Symbols(data[i..])
  {
    hide Symbol;
    assert data[i..][3..] == data[i + 3..];
  }

  lemma {:induction false} LastSymbols(data: seq<Octet>, i: nat, n: nat, symbols: string)
    requires i + n == |data| && n < 3 && i % 3 == 0 && symbols + Symbols(data[i..]) == Symbols(data)
    ensures |data| % 3 == n
    ensures n == 0 ==> symbols == Symbols(data)
    ensures n == 1 ==> symbols + [Symbol(data[i] / 4)] + [Symbol(data[i] % 4 * 16)] + ['='] == Symbols(data)[..|Symbols(data)| - 1]
    ensures n == 2 ==> data[i] as int % 4 * 16 + data[i + 1] as int / 16 < 64
    ensures n == 2 ==>
      symbols + [Symbol(data[i] / 4)] + [Symbol(data[i] as int % 4 * 16 + data[i + 1] as int / 16)] + [Symbol(data[i + 1] % 16 * 4)]
        == Symbols(data)[..|Symbols(data)| - 1]
  {
    hide Symbol, Symbols;
    if n == 1 {
      LastOne(data[i]);
      assert data[i..] == [data[i]];
      WithoutLast(symbols, Symbols(data[i..]), Symbols(data));
    } else if n == 2 {
      LastTwo(data[i], data[i + 1]);
      assert data[i..] == [data[i], data[i + 1]];
      WithoutLast(symbols, Symbols(data[i..]), Symbols(data));
    } else {
      LastNone(data[i..]);
    }
  }

  lemma {:induction false} LastNone(data: seq<Octet>)
    ensures |data| == 0 ==> Symbols(data) == []
  {
  }

  lemma {:induction false} LastOne(a: Octet)
    ensures Symbols([a]) == [Symbol(a / 4), Symbol(a % 4 * 16), '=', '=']
  {
  }

  lemma {:induction false} LastTwo(a: Octet, b: Octet)
    ensures a as int % 4 * 16 + b as int / 16 < 64
    ensures Symbols([a, b]) == [Symbol(a / 4), Symbol(a as int % 4 * 16 + b as int / 16), Symbol(b % 16 * 4), '=']
  {
  }

  lemma {:induction false} WithoutLast(s: string, t: string, whole: string)
    requires s + t == whole && |t| == 4
    ensures |whole| > 0 && whole[..|whole| - 1] == s + [t[0]] + [t[1]] + [t[2]]
  {
  }

  lemma {:induction false} TextIs(data: seq<Octet>, symbols: string, tabs: int, width: int)
    requires symbols == if |data| % 3 == 0 then Symbols(data) else Symbols(data)[..|Symbols(data)| - 1]
    ensures Text(data, tabs, width) ==
      (if |data| % 3 > 0 then Tabs(tabs) + Lines(symbols, tabs, width) + ['='] else Tabs(tabs) + Lines(symbols, tabs, width)) + ['\n']
  {
    hide Symbols, Tabs, Lines;
  }

  /* ----- Decoding ----- */

  // The values of the text's alphabet characters; all others are passed over.
  function Values(text: string): seq<Sextet> {
    if text == [] then [] else Values(text[..|text| - 1]) + ValueOf(text[|text| - 1])
  }

  function Equals(text: string): nat {
    if text == [] then 0 else Equals(text[..|text| - 1]) + (if text[|text| - 1] == '=' then 1 else 0)
  }

  // The bytes of the groups of four values.
  function Groups(v: seq<Sextet>): (b: seq<Octet>)
    ensures |b| == |v| / 4 * 3
    decreases |v|
  {
    if |v| < 4 then [] else [First(v[..4]), Second(v[..4]), Third(v[..4])] + Groups(v[4..])
  }

  // The four values the decoder holds: those after the last whole group, over zeros, or over what it began with.
  function Held(v: seq<Sextet>, start: seq<Sextet>): (h: seq<Sextet>)
    requires |start| == 4
    ensures |h| == 4
  {
    v[|v| - |v| % 4..] + (if |v| < 4 then start else [0, 0, 0, 0])[|v| % 4..]
  }

  // The bytes written for padding.
  function LastBytes(h: seq<Sextet>, drop: nat): seq<Octet>
    requires |h| == 4
  {
    [First(h)] + (if drop <= 2 then [Second(h)] else []) + (if drop <= 1 then [Third(h)] else [])
  }

  function Written(v: seq<Sextet>, drop: nat, start: seq<Sextet>): seq<Octet>
    requires |start| == 4
  {
    Groups(v) + if drop == 0 then [] else LastBytes(Held(v, start), drop)
  }

  function Kept(drop: nat): int { if drop == 0 then 0 else 3 - drop }

  // A C string: the characters before the first NUL.
  function CString(s: string): (t: string)
    ensures '\0' !in t && t <= s
  {
    if s == [] || s[0] == '\0' then [] else [s[0]] + CString(s[1..])
  }

  lemma {:induction false} CStringAt(s: string, n: nat)
    requires n < |s| && '\0' !in s[..n] && s[n] == '\0'
    ensures CString(s) == s[..n]
    decreases n
  {
    if n > 0 {
      var u, t := s[..n], s[1..][..n - 1];
      assert u == [s[0]] + t;
      CStringAt(s[1..], n - 1);
    }
  }

  // The decoder has read these values: whole groups are written, the rest is in its buffer, and there is room.
  ghost predicate Decoding(v: seq<Sextet>, start: seq<Sextet>, buffer: seq<Sextet>, charsInBuffer: nat, data: seq<Octet>, size: nat)
    requires |start| == 4
  {
    charsInBuffer == |v| % 4 && buffer == Held(v, start) && data == Groups(v) && |data| < size && size >= 100
  }

  // The text's NUL is here or further on.
  ghost predicate Scanned(s: string, i: nat) { i < |s| && '\0' in s[i..] && '\0' !in s[..i] }

  // A character of the alphabet goes into the decoder's buffer, and a full buffer out of it as three bytes.
  method ReadChar(c: char, ghost v: seq<Sextet>, ghost start: seq<Sextet>, buffer0: seq<Sextet>, chars0: nat, data0: seq<Octet>, size0: nat)
    returns (buffer: seq<Sextet>, charsInBuffer: nat, data: seq<Octet>, decodeBufferSize: nat)
    requires |start| == 4 && Decoding(v, start, buffer0, chars0, data0, size0)
    ensures Decoding(v + ValueOf(c), start, buffer, charsInBuffer, data, decodeBufferSize)
  {
    hide Held, Groups, First, Second, Third, ValueOf;
    buffer, charsInBuffer, data, decodeBufferSize := buffer0, chars0, data0, size0;
    var read := ValueOf(c);
    Step(v, start, read);
    if |read| == 1 {
      buffer := buffer[charsInBuffer := read[0]];
      charsInBuffer := charsInBuffer + 1;
    }
    if charsInBuffer == 4 {
      charsInBuffer := 0;
      if |data| + 3 >= decodeBufferSize {
        decodeBufferSize := decodeBufferSize * 2;
      }
      data := data + [First(buffer), Second(buffer), Third(buffer)];
      buffer := [0, 0, 0, 0];
    }
  }

  // The bytes of an unfinished group, as many as the padding leaves.
  method PutLast(ghost v: seq<Sextet>, ghost start: seq<Sextet>, buffer: seq<Sextet>, ghost chars: nat, data0: seq<Octet>, size0: nat, bytesToDrop: nat)
    returns (data: seq<Octet>, dataLength: int, decodeBufferSize: nat)
    requires |start| == 4 && Decoding(v, start, buffer, chars, data0, size0)
    ensures data == Written(v, bytesToDrop, start) && dataLength == |Groups(v)| + Kept(bytesToDrop) && |data| <= decodeBufferSize
  {
    hide Held, Groups, LastBytes;
    data, dataLength, decodeBufferSize := data0, |data0|, size0;
    if bytesToDrop != 0 {
      if |data| + 3 >= decodeBufferSize {
        decodeBufferSize := decodeBufferSize * 2;
      }
      dataLength := |data| + 3 - bytesToDrop;
      LastIs(buffer, bytesToDrop);
      data := data + LastBytes(buffer, bytesToDrop);
    }
  }

  // The text is read up to its NUL.  The values the decoder's four-byte buffer starts with are arbitrary.
  // The size the output buffer has grown to is more than all that was written.
  method DecodeBase64(toDecode: string, start: seq<Sextet>) returns (data: seq<Octet>, dataLength: int, decodeBufferSize: nat)
    requires '\0' in toDecode && |start| == 4
    ensures data == Written(Values(CString(toDecode)), Equals(CString(toDecode)) % 256, start)
    ensures dataLength == |Groups(Values(CString(toDecode)))| + Kept(Equals(CString(toDecode)) % 256)
    ensures |data| <= decodeBufferSize
  {
    hide *;
    var buffer, charsInBuffer, bytesToDrop: nat, i: nat := start, 0, 0, 0;
    data, decodeBufferSize := [], 100;
    Begun(start, toDecode);
    while toDecode[i] != '\0'
      invariant i < |toDecode| && Scanned(toDecode, i)
      invariant Decoding(Values(toDecode[..i]), start, buffer, charsInBuffer, data, decodeBufferSize)
      invariant bytesToDrop == Equals(toDecode[..i]) % 256
      decreases |toDecode| - i
    {
      var c := toDecode[i];
      NextChar(toDecode, i, c);
      buffer, charsInBuffer, data, decodeBufferSize :=
        ReadChar(c, Values(toDecode[..i]), start, buffer, charsInBuffer, data, decodeBufferSize);
      if c == '=' {
        bytesToDrop := (bytesToDrop + 1) % 256;
      }
      i := i + 1;
    }
    AtNul(toDecode, i);
    data, dataLength, decodeBufferSize :=
      PutLast(Values(toDecode[..i]), start, buffer, charsInBuffer, data, decodeBufferSize, bytesToDrop);
  }

  lemma {:induction false} LastIs(h: seq<Sextet>, drop: nat)
    requires |h| == 4
    ensures |LastBytes(h, drop)| <= 3
  {
  }

  lemma {:induction false} Begun(start: seq<Sextet>, toDecode: string)
    requires |start| == 4 && '\0' in toDecode
    ensures Scanned(toDecode, 0) && Decoding(Values(toDecode[..0]), start, start, 0, [], 100) && Equals(toDecode[..0]) == 0
  {
    assert toDecode[0..] == toDecode;
  }

  lemma {:induction false} NextChar(toDecode: string, i: nat, c: char)
    requires i < |toDecode| && c == toDecode[i] && Scanned(toDecode, i)
    ensures Values(toDecode[..i + 1]) == Values(toDecode[..i]) + ValueOf(c)
    ensures Equals(toDecode[..i + 1]) == Equals(toDecode[..i]) + (if c == '=' then 1 else 0)
    ensures c != '\0' ==> i + 1 < |toDecode| && Scanned(toDecode, i + 1)
  {
    hide ValueOf;
    assert toDecode[..i + 1][..i] == toDecode[..i];
    assert toDecode[i..] == [c] + toDecode[i + 1..];
    assert toDecode[..i + 1] == toDecode[..i] + [c];
  }

  lemma {:induction false} AtNul(s: string, i: nat)
    requires Scanned(s, i) && s[i] == '\0'
    ensures CString(s) == s[..i]
  {
    CStringAt(s, i);
  }

  lemma {:induction false} Step(v: seq<Sextet>, start: seq<Sextet>, read: seq<Sextet>)
    requires |start| == 4 && |read| <= 1
    ensures |read| == 0 ==> v + read == v
    ensures |read| == 1 ==> var h := Held(v, start)[|v| % 4 := read[0]];
      if |v| % 4 == 3 then
        |v + read| % 4 == 0 && Groups(v + read) == Groups(v) + [First(h), Second(h), Third(h)] && Held(v + read, start) == [0, 0, 0, 0]
      else |v + read| % 4 == |v| % 4 + 1 && Groups(v + read) == Groups(v) && Held(v + read, start) == h
  {
    hide First, Second, Third, Groups, Held;
    Fours(|v|);
    if read == [] {
      assert v + read == v;
    } else {
      var n := |v| - |v| % 4;
      var p, q := v[..n], v[n..];
      InFours(v, read, n);
      GroupsStep(p, q, read);
      HeldStep(p, q, start, read[0]);
    }
  }

  lemma {:induction false} Fours(n: nat)
    ensures 0 <= n % 4 < 4 && n % 4 <= n && (n - n % 4) % 4 == 0
    ensures (n + 1) % 4 == if n % 4 == 3 then 0 else n % 4 + 1
  {
  }

  lemma {:induction false} InFours(v: seq<Sextet>, read: seq<Sextet>, n: nat)
    requires n <= |v| && |read| == 1
    ensures v[..n] + v[n..] == v && v[..n] + (v[n..] + read) == v + read && read == [read[0]] && |v[n..]| == |v| - n
  {
  }

  lemma {:induction false} GroupsStep(p: seq<Sextet>, q: seq<Sextet>, read: seq<Sextet>)
    requires |p| % 4 == 0 && |q| < 4 && |read| <= 1
    ensures Groups(p + (q + read)) == Groups(p + q) +
      (if |q + read| == 4 then [First(q + read), Second(q + read), Third(q + read)] else [])
  {
    hide First, Second, Third;
    GroupsConcat(p, q);
    GroupsConcat(p, q + read);
    if |q + read| == 4 {
      assert (q + read)[..4] == q + read && (q + read)[4..] == [];
    }
  }

  lemma {:induction false} GroupsConcat(p: seq<Sextet>, q: seq<Sextet>)
    requires |p| % 4 == 0
    ensures Groups(p + q) == Groups(p) + Groups(q)
    decreases |p|
  {
    hide First, Second, Third;
    if p == [] {
      assert p + q == q;
    } else {
      assert (p + q)[..4] == p[..4] && (p + q)[4..] == p[4..] + q;
      GroupsConcat(p[4..], q);
    }
  }

  // Whole groups before the values held.
  lemma {:induction false} HeldIs(p: seq<Sextet>, q: seq<Sextet>, start: seq<Sextet>)
    requires |p| % 4 == 0 && |q| < 4 && |start| == 4
    ensures |p + q| % 4 == |q|
    ensures Held(p + q, start) == q + (if p == [] then start else [0, 0, 0, 0])[|q|..]
  {
    WholeGroups(|p|, |q|);
    assert (p + q)[|p|..] == q;
  }

  lemma {:induction false} WholeGroups(n: nat, m: nat)
    requires n % 4 == 0 && m < 4
    ensures (n + m) % 4 == m && (n > 0 ==> n >= 4)
  {
  }

  lemma {:induction false} HeldStep(p: seq<Sextet>, q: seq<Sextet>, start: seq<Sextet>, x: Sextet)
    requires |p| % 4 == 0 && |q| < 4 && |start| == 4
    ensures |p + q| % 4 == |q|
    ensures |q| == 3 ==> Held(p + q, start)[3 := x] == q + [x] && |p + (q + [x])| % 4 == 0 && Held(p + (q + [x]), start) == [0, 0, 0, 0]
    ensures |q| < 3 ==> Held(p + (q + [x]), start) == Held(p + q, start)[|q| := x] && |p + (q + [x])| % 4 == |q| + 1
  {
    hide *;
    var z := if p == [] then start else [0, 0, 0, 0];
    HeldIs(p, q, start);
    if |q| < 3 {
      HeldIs(p, q + [x], start);
      SetNext(q, z, x);
    } else {
      WholeGroups(|p| + 4, 0);
      HeldIs(p + (q + [x]), [], start);
      assert p + (q + [x]) + [] == p + (q + [x]);
      assert (q + z[3..])[3 := x] == q + [x];
    }
  }

  lemma {:induction false} SetNext(q: seq<Sextet>, z: seq<Sextet>, x: Sextet)
    requires |q| < 3 && |z| == 4
    ensures (q + z[|q|..])[|q| := x] == (q + [x]) + z[|q + [x]|..]
  {
  }

  /* ----- The round trip ----- */

  // The values that the symbols of some data stand for.
  function Sextets(data: seq<Octet>): seq<Sextet>
    decreases |data|
  {
    if |data| >= 3 then Sextets3(data[0], data[1], data[2]) + Sextets(data[3..])
    else if |data| == 2 then Sextets2(data[0], data[1])
    else if |data| == 1 then Sextets1(data[0])
    else []
  }

  predicate Blank(s: string) { forall i :: 0 <= i < |s| ==> s[i] == '\n' || s[i] == '\t' }

  // What a text without a NUL reads as.
  ghost predicate Reads(s: string, v: seq<Sextet>, drops: nat) {
    '\0' !in s && Values(s) == v && Equals(s) == drops
  }

  lemma {:induction false} ReadsMore(s: string, v: seq<Sextet>, drops: nat, c: char)
    requires Reads(s, v, drops) && c != '\0'
    ensures Reads(s + [c], v + ValueOf(c), drops + if c == '=' then 1 else 0)
  {
    hide ValueOf;
    assert (s + [c])[..|s|] == s;
  }

  // Blanks carry no value.
  lemma {:induction false} ReadsBlank(s: string, v: seq<Sextet>, drops: nat, t: string)
    requires Reads(s, v, drops) && Blank(t)
    ensures Reads(s + t, v, drops)
    decreases |t|
  {
    hide Reads;
    if t == [] {
      assert s + t == s;
    } else {
      var l := |t| - 1;
      ReadsBlank(s, v, drops, t[..l]);
      ReadsMore(s + t[..l], v, drops, t[l]);
      assert s + t == s + t[..l] + [t[l]];
      assert v + [] == v;
    }
  }

  lemma {:induction false} TabsBlank(n: int)
    ensures Blank(Tabs(n))
    decreases n
  {
    if n > 0 {
      TabsBlank(n - 1);
    }
  }

  lemma {:induction false} LineEndBlank(n: nat, tabs: int, width: int)
    ensures Blank(LineEnd(n, tabs, width))
  {
    TabsBlank(tabs);
  }

  // Wrapping does not change what is read.
  lemma {:induction false} LinesRead(symbols: string, tabs: int, width: int)
    requires '\0' !in symbols
    ensures Reads(Tabs(tabs) + Lines(symbols, tabs, width), Values(symbols), Equals(symbols))
    decreases |symbols|
  {
    hide *;
    if symbols == [] {
      NoLinesRead(tabs, width);
    } else {
      var n := |symbols| - 1;
      assert symbols[..n] + [symbols[n]] == symbols;
      LinesRead(symbols[..n], tabs, width);
      LineRead(symbols[..n], symbols[n], tabs, width);
    }
  }

  lemma {:induction false} NoLinesRead(tabs: int, width: int)
    ensures Reads(Tabs(tabs) + Lines([], tabs, width), Values([]), Equals([]))
  {
    TabsBlank(tabs);
    ReadsBlank([], [], 0, Tabs(tabs));
    assert [] + Tabs(tabs) == Tabs(tabs) && Tabs(tabs) + Lines([], tabs, width) == Tabs(tabs);
  }

  lemma {:induction false} LineRead(l: string, c: char, tabs: int, width: int)
    requires c != '\0' && Reads(Tabs(tabs) + Lines(l, tabs, width), Values(l), Equals(l)) && '\0' !in l
    ensures Reads(Tabs(tabs) + Lines(l + [c], tabs, width), Values(l + [c]), Equals(l + [c]))
  {
    hide *;
    var s, end := Tabs(tabs) + Lines(l, tabs, width), LineEnd(|l| + 1, tabs, width);
    ReadsSelf(l);
    ReadsMore(l, Values(l), Equals(l), c);
    ReadsSelf(l + [c]);
    ReadsMore(s, Values(l), Equals(l), c);
    LineEndBlank(|l| + 1, tabs, width);
    ReadsBlank(s + [c], Values(l) + ValueOf(c), Equals(l) + (if c == '=' then 1 else 0), end);
    OneMoreSymbol(l, c, tabs, width);
    assert Tabs(tabs) + Lines(l + [c], tabs, width) == s + [c] + end;
    ReadsSame(l + [c], Values(l) + ValueOf(c), Equals(l) + (if c == '=' then 1 else 0));
  }

  lemma {:induction false} ReadsSelf(s: string)
    ensures '\0' !in s ==> Reads(s, Values(s), Equals(s))
  {
  }

  lemma {:induction false} ReadsSame(s: string, v: seq<Sextet>, drops: nat)
    requires Reads(s, v, drops)
    ensures Values(s) == v && Equals(s) == drops && '\0' !in s
  {
  }

  lemma {:induction false} TextMore(s: string, c: char)
    ensures Values(s + [c]) == Values(s) + ValueOf(c) && Equals(s + [c]) == Equals(s) + (if c == '=' then 1 else 0)
  {
    assert (s + [c])[..|s|] == s;
  }

  lemma {:induction false} ReadConcat(s: string, t: string)
    ensures Values(s + t) == Values(s) + Values(t) && Equals(s + t) == Equals(s) + Equals(t)
    decreases |t|
  {
    hide *;
    if t == [] {
      NothingRead();
      assert s + t == s;
    } else {
      var l := |t| - 1;
      var t', c := t[..l], t[l];
      assert t' + [c] == t;
      ReadConcat(s, t');
      TextMore(t', c);
      TextMore(s + t', c);
      assert s + t' + [c] == s + (t' + [c]);
    }
  }

  // Symbols read back are the values they were made from.
  lemma {:induction false} SymbolsOfRead(v: seq<Sextet>)
    ensures Values(SymbolsOf(v)) == v && Equals(SymbolsOf(v)) == 0 && '\0' !in SymbolsOf(v)
    decreases |v|
  {
    if v != [] {
      var l := |v| - 1;
      SymbolsOfRead(v[..l]);
      SymbolValue(v[l]);
      assert SymbolsOf(v) == SymbolsOf(v[..l]) + [Symbol(v[l])];
      hide Values, Equals, Symbol, ValueOf;
      TextMore(SymbolsOf(v[..l]), Symbol(v[l]));
    }
  }

  lemma {:induction false} Padding(s: string)
    ensures Values(s + ['=']) == Values(s) && Equals(s + ['=']) == Equals(s) + 1
  {
    hide Values, Equals;
    TextMore(s, '=');
  }

  lemma {:induction false} SymbolsRead(data: seq<Octet>)
    ensures Values(Symbols(data)) == Sextets(data) && '\0' !in Symbols(data)
    ensures Equals(Symbols(data)) == if |data| % 3 == 0 then 0 else 3 - |data| % 3
    decreases |data|
  {
    hide Values, Equals, SymbolsOf, Sextets3, Sextets2, Sextets1;
    if |data| >= 3 {
      SymbolsRead(data[3..]);
      SymbolsOfRead(Sextets3(data[0], data[1], data[2]));
      ReadConcat(SymbolsOf(Sextets3(data[0], data[1], data[2])), Symbols(data[3..]));
    } else if |data| == 2 {
      SymbolsOfRead(Sextets2(data[0], data[1]));
      Padding(SymbolsOf(Sextets2(data[0], data[1])));
    } else if |data| == 1 {
      var s := SymbolsOf(Sextets1(data[0]));
      SymbolsOfRead(Sextets1(data[0]));
      Padding(s);
      Padding(s + ['=']);
      assert s + ['='] + ['='] == s + ['=', '='];
    } else {
      NothingRead();
    }
  }

  lemma {:induction false} NothingRead()
    ensures Values([]) == [] && Equals([]) == 0
  {
  }

  // The padding symbols that fill the last group of four.
  function Pads(n: nat): nat { if n % 3 == 0 then 0 else 3 - n % 3 }

  lemma {:induction false} TextReads(data: seq<Octet>, tabs: int, width: int)
    ensures Reads(Text(data, tabs, width), Sextets(data), Pads(|data|))
  {
    hide *;
    SymbolsRead(data);
    var s := Symbols(data);
    var body := if |data| % 3 == 0 then s else s[..|s| - 1];
    var t := Tabs(tabs) + Lines(body, tabs, width);
    LinesRead(body, tabs, width);
    if |data| % 3 != 0 {
      PadRead(data, body, t);
    }
    PadsIs(|data|);
    TextParts(data, t, tabs, width);
    LineFeed();
    ReadsBlank(if |data| % 3 == 0 then t else t + ['='], Sextets(data), Pads(|data|), ['\n']);
  }

  lemma {:induction false} PadsIs(n: nat)
    ensures Pads(n) == if n % 3 == 0 then 0 else 3 - n % 3
  {
  }

  // The last padding symbol, which no line end follows.
  lemma {:induction false} PadRead(data: seq<Octet>, body: string, t: string)
    requires |data| % 3 != 0 && body == Symbols(data)[..|Symbols(data)| - 1] && Reads(t, Values(body), Equals(body))
    ensures Reads(t + ['='], Values(Symbols(data)), Equals(Symbols(data)))
  {
    hide *;
    LastIsPad(data);
    assert body + ['='] == Symbols(data);
    TextMore(body, '=');
    ReadsMore(t, Values(body), Equals(body), '=');
  }

  lemma {:induction false} TextParts(data: seq<Octet>, t: string, tabs: int, width: int)
    requires t == Tabs(tabs) + Lines(if |data| % 3 == 0 then Symbols(data) else Symbols(data)[..|Symbols(data)| - 1], tabs, width)
    ensures Text(data, tabs, width) == (if |data| % 3 == 0 then t else t + ['=']) + ['\n']
  {
  }

  lemma {:induction false} LineFeed()
    ensures Blank(['\n'])
  {
  }

  lemma {:induction false} LastIsPad(data: seq<Octet>)
    requires |data| % 3 != 0
    ensures Symbols(data)[|Symbols(data)| - 1] == '='
    decreases |data|
  {
    if |data| >= 3 {
      LastIsPad(data[3..]);
    }
  }

  // Three bytes, two bytes, one byte through their values and back.
  lemma {:induction false} ThreeBack(a: Octet, b: Octet, c: Octet)
    ensures First(Sextets3(a, b, c)) == a && Second(Sextets3(a, b, c)) == b && Third(Sextets3(a, b, c)) == c
  {
    FirstBack(a, b);
    SecondBack(a, b, c);
    ThirdBack(b, c);
  }

  lemma {:induction false} FirstBack(a: nat, b: nat)
    requires a < 256 && b < 256
    ensures a / 4 * 4 % 256 + (a % 4 * 16 + b / 16) / 16 == a
  {
    assert (a % 4 * 16 + b / 16) / 16 == a % 4;
  }

  lemma {:induction false} SecondBack(a: nat, b: nat, c: nat)
    requires a < 256 && b < 256 && c < 256
    ensures (a % 4 * 16 + b / 16) % 16 * 16 + (b % 16 * 4 + c / 64) / 4 == b
  {
    assert (a % 4 * 16 + b / 16) % 16 == b / 16;
    assert (b % 16 * 4 + c / 64) / 4 == b % 16;
  }

  lemma {:induction false} ThirdBack(b: nat, c: nat)
    requires b < 256 && c < 256
    ensures (b % 16 * 4 + c / 64) % 4 * 64 + c % 64 == c
  {
    assert (b % 16 * 4 + c / 64) % 4 == c / 64;
  }

  lemma {:induction false} TwoBack(a: Octet, b: Octet, z: seq<Sextet>)
    requires |z| == 1
    ensures First(Sextets2(a, b) + z) == a && Second(Sextets2(a, b) + z) == b
  {
    var v := Sextets2(a, b) + z;
    assert v[0] == a / 4 && v[1] == a % 4 * 16 + b / 16 && v[2] == b % 16 * 4;
  }

  lemma {:induction false} OneBack(a: Octet, z: seq<Sextet>)
    requires |z| == 2
    ensures First(Sextets1(a) + z) == a
  {
  }

  lemma {:induction false} HeldAfterGroup(g: seq<Sextet>, v: seq<Sextet>, start: seq<Sextet>)
    requires |g| == 4 && |start| == 4
    ensures Held(g + v, start) == Held(v, [0, 0, 0, 0])
    ensures Groups(g + v) == [First(g), Second(g), Third(g)] + Groups(v)
  {
    hide *;
    OneGroup(g);
    GroupsConcat(g, v);
    Fours(|v|);
    var n := |v| - |v| % 4;
    HeldAfter(g, v[..n], v[n..], start);
    Behind(g, v, n);
  }

  lemma {:induction false} Behind(g: seq<Sextet>, v: seq<Sextet>, n: nat)
    requires n <= |v|
    ensures v[..n] + v[n..] == v && g + v[..n] + v[n..] == g + v
  {
  }

  lemma {:induction false} OneGroup(g: seq<Sextet>)
    requires |g| == 4
    ensures Groups(g) == [First(g), Second(g), Third(g)]
  {
    hide First, Second, Third;
    assert g[..4] == g && g[4..] == [];
  }

  lemma {:induction false} HeldAfter(g: seq<Sextet>, p: seq<Sextet>, q: seq<Sextet>, start: seq<Sextet>)
    requires |g| == 4 && |p| % 4 == 0 && |q| < 4 && |start| == 4
    ensures Held(g + p + q, start) == Held(p + q, [0, 0, 0, 0])
  {
    hide Held;
    HeldIs(p, q, [0, 0, 0, 0]);
    HeldIs(g + p, q, start);
  }

  lemma {:induction false} DecodedBack(data: seq<Octet>, start: seq<Sextet>)
    requires |start| == 4
    ensures var w, n := Written(Sextets(data), Pads(|data|), start), |Groups(Sextets(data))| + Kept(Pads(|data|));
      0 <= n <= |w| && w[..n] == data
    decreases |data|
  {
    hide *;
    if |data| >= 3 {
      var g, v := Sextets3(data[0], data[1], data[2]), Sextets(data[3..]);
      DecodedBack(data[3..], [0, 0, 0, 0]);
      SextetsMore(data);
      HeldAfterGroup(g, v, start);
      ThreeBack(data[0], data[1], data[2]);
      PadsLess(|data|);
      assert data[..3] == [data[0], data[1], data[2]];
      MoreWritten(data, v, start);
    } else {
      FewBack(data, start);
    }
  }

  lemma {:induction false} SextetsMore(data: seq<Octet>)
    requires |data| >= 3
    ensures Sextets(data) == Sextets3(data[0], data[1], data[2]) + Sextets(data[3..])
  {
  }

  lemma {:induction false} PadsLess(n: nat)
    requires n >= 3
    ensures Pads(n - 3) == Pads(n)
  {
  }

  lemma {:induction false} MoreWritten(data: seq<Octet>, v: seq<Sextet>, start: seq<Sextet>)
    requires |data| >= 3 && |start| == 4 && v == Sextets(data[3..])
    requires Held(Sextets(data), start) == Held(v, [0, 0, 0, 0]) && Groups(Sextets(data)) == data[..3] + Groups(v)
    requires var w, n := Written(v, Pads(|data|), [0, 0, 0, 0]), |Groups(v)| + Kept(Pads(|data|)); 0 <= n <= |w| && w[..n] == data[3..]
    ensures var w, n := Written(Sextets(data), Pads(|data|), start), |Groups(Sextets(data))| + Kept(Pads(|data|));
      0 <= n <= |w| && w[..n] == data
  {
    hide Groups, Held, LastBytes, Sextets, Kept, Pads;
    var w := Written(v, Pads(|data|), [0, 0, 0, 0]);
    var n := |Groups(v)| + Kept(Pads(|data|));
    assert Written(Sextets(data), Pads(|data|), start) == data[..3] + w;
    assert (data[..3] + w)[..3 + n] == data[..3] + w[..n];
  }

  lemma {:induction false} FewBack(data: seq<Octet>, start: seq<Sextet>)
    requires |data| < 3 && |start| == 4
    ensures var w, n := Written(Sextets(data), Pads(|data|), start), |Groups(Sextets(data))| + Kept(Pads(|data|));
      0 <= n <= |w| && w[..n] == data
  {
    hide Groups, First, Second, Third, Held, Sextets2, Sextets1;
    var v := Sextets(data);
    HeldIs([], v, start);
    assert [] + v == v;
    FewGroups(v);
    if |data| == 2 {
      TwoBack(data[0], data[1], start[3..]);
    } else if |data| == 1 {
      OneBack(data[0], start[2..]);
    }
  }

  lemma {:induction false} FewGroups(v: seq<Sextet>)
    requires |v| < 4
    ensures Groups(v) == []
  {
  }

  // What is converted decodes to itself, whatever the width and the decoder's stack hold, as long as the
  // conversion stays inside its buffer.
  method ThereAndBack(data: seq<Octet>, tabLength: int, width: int, start: seq<Sextet>) returns (back: seq<Octet>)
    requires |start| == 4
    ensures data == [] || !Doubled(tabLength) ==> back == data
  {
    hide *;
    var text, _ := ConvertBase64(data, tabLength, width);
    TextReads(data, tabLength, width);
    ReadsSame(Text(data, tabLength, width), Sextets(data), Pads(|data|));
    PadsSmall(|data|);
    assert text[|text| - 1] == '\0';
    FirstNul(Text(data, tabLength, width), text);
    var decoded, length, _ := DecodeBase64(text, start);
    DecodedBack(data, start);
    back := decoded[..length];
  }

  lemma {:induction false} PadsSmall(n: nat)
    ensures Pads(n) % 256 == Pads(n)
  {
  }

  lemma {:induction false} FirstNul(s: string, text: string)
    requires text == s + ['\0'] && '\0' !in s
    ensures CString(text) == s
  {
    assert text[..|s|] == s;
    CStringAt(text, |s|);
  }

  // A hundred tabs fill the first buffer, and the first symbol of a single byte is written behind it.
  method HundredTabs(b: Octet, width: int) returns (text: string, ghost within: bool)
    ensures text == Text([b], 100, width) + ['\0'] && !within
  {
    hide Text;
    text, within := ConvertBase64([b], 100, width);
  }

  // After a whole number of lines, the next one holds width + 1 symbols between its tabs and its end.
  lemma {:induction false} LineHolds(symbols: string, tabs: int, width: nat, a: nat)
    requires OnLine(a, width) == 0 && a + width + 1 <= |symbols|
    ensures Lines(symbols[..a + width + 1], tabs, width) ==
      Lines(symbols[..a], tabs, width) + symbols[a..a + width + 1] + (['\n'] + Tabs(tabs))
    ensures OnLine(a + width + 1, width) == 0
  {
    hide *;
    InLine(a, width, width);
    NextOnLine(a + width, width);
    OpenLine(symbols, tabs, width, a, width);
    WithOneMore(symbols, a, width);
    LineEndIs(a + width + 1, tabs, width);
    OneMoreSymbol(symbols[..a + width], symbols[a + width], tabs, width);
  }

  lemma {:induction false} LineEndIs(n: nat, tabs: int, width: nat)
    ensures LineEnd(n, tabs, width) == if OnLine(n, width) == 0 then ['\n'] + Tabs(tabs) else []
  {
  }

  lemma {:induction false} InLine(a: nat, width: nat, j: nat)
    requires OnLine(a, width) == 0 && j <= width
    ensures OnLine(a + j, width) == j
    decreases j
  {
    hide OnLine;
    if j > 0 {
      InLine(a, width, j - 1);
      NextOnLine(a + j - 1, width);
    }
  }

  lemma {:induction false} WithOneMore(symbols: string, a: nat, n: nat)
    requires a + n < |symbols|
    ensures symbols[..a + n] + [symbols[a + n]] == symbols[..a + n + 1]
    ensures symbols[a..a + n] + [symbols[a + n]] == symbols[a..a + n + 1]
  {
  }

  lemma {:induction false} OpenLine(symbols: string, tabs: int, width: nat, a: nat, j: nat)
    requires j <= width && a + j <= |symbols| && OnLine(a, width) == 0
    ensures Lines(symbols[..a + j], tabs, width) == Lines(symbols[..a], tabs, width) + symbols[a..a + j]
    decreases j
  {
    hide *;
    if j > 0 {
      var i := j - 1;
      OpenLine(symbols, tabs, width, a, i);
      WithOneMore(symbols, a, i);
      InLine(a, width, j);
      LineEndIs(a + j, tabs, width);
      OneMoreSymbol(symbols[..a + i], symbols[a + i], tabs, width);
      assert a + i + 1 == a + j;
    }
  }
}

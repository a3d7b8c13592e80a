/** The status words of udpkg: "install ok installed" and the bits they stand for
    (packages/udpkg/status.c). */
module UdpkgStatusWords {
  import opened Wrappers

  /** A status is the set of its bit positions. */
  type StatusBits = set<nat>

  /** The words of the three fields: want, flag, status. */
  const STATUS_WORDS: seq<seq<string>> := [
    ["unknown", "install", "hold", "deinstall", "purge"],
    ["ok", "reinstreq", "hold", "hold-reinstreq"],
    ["not-installed", "unpacked", "half-configured", "installed", "half-installed",
     "config-files", "post-inst-failed", "removal-failed"]]

  /** Field i has FieldSize(i) bits, from FieldStart(i) on. */
  function FieldStart(i: nat): nat {
    if i == 0 then 0 else if i == 1 then 5 else 9
  }

  function FieldSize(i: nat): nat {
    if i == 0 then 5 else if i == 1 then 4 else 8
  }

  function Bit(i: nat, j: nat): nat {
    FieldStart(i) + j
  }

  const FLAG_OK := Bit(1, 0)
  const STATUS_INSTALLED := Bit(2, 3)

  /** Three fields of words without spaces, no word twice in a field. */
  ghost predicate Table(words: seq<seq<string>>) {
    |words| == 3 && forall i :: 0 <= i < 3 ==> Row(words[i], FieldSize(i))
  }

  ghost predicate Row(words: seq<string>, size: nat) {
    && |words| == size
    && (forall j :: 0 <= j < |words| ==> ' ' !in words[j])
    && (forall j, k :: 0 <= j < k < |words| ==> words[j] != words[k])
  }

  lemma StatusWordsAreTable()
    ensures Table(STATUS_WORDS)
  {
    WantWords();
    FlagWords();
    StateWords();
  }

  lemma WantWords()
    ensures Row(STATUS_WORDS[0], FieldSize(0))
  {
  }

  lemma FlagWords()
    ensures Row(STATUS_WORDS[1], FieldSize(1))
  {
  }

  lemma StateWords()
    ensures Row(STATUS_WORDS[2], FieldSize(2))
  {
  }

  /** Exactly one bit in each field and none outside. */
  ghost predicate OneBitEach(bits: StatusBits) {
    exists w, f, s :: 0 <= w < FieldSize(0) && 0 <= f < FieldSize(1) && 0 <= s < FieldSize(2)
                      && bits == {Bit(0, w), Bit(1, f), Bit(2, s)}
  }

  // ---------------------------------------------------------------------
  // Parsing

  /** A line with too few words makes the parser follow a null pointer. */
  datatype Parsed = Bits(bits: StatusBits) | ParseError | Crash {
    function Value(): StatusBits {
      if Bits? then bits else {}
    }

    function With(b: nat): Parsed {
      if Bits? then Bits({b} + bits) else this
    }
  }

  function FirstSpace(line: string): (k: nat)
    ensures k <= |line|
    ensures forall j :: 0 <= j < k ==> line[j] != ' '
    ensures k < |line| ==> line[k] == ' '
  {
    if line == [] || line[0] == ' ' then 0 else 1 + FirstSpace(line[1..])
  }

  function IndexIn(words: seq<string>, w: string): (j: nat)
    ensures j <= |words|
    ensures j < |words| ==> words[j] == w
    ensures forall k :: 0 <= k < j ==> words[k] != w
  {
    if words == [] || words[0] == w then 0 else 1 + IndexIn(words[1..], w)
  }

  /** The fields from the i-th on. */
  function ParseFrom(words: seq<seq<string>>, line: string, i: nat): Parsed
    requires i <= 3 == |words|
    decreases |words| - i
  {
    if i == 3 then Bits({})
    else
      var k := FirstSpace(line);
      var j := IndexIn(words[i], line[..k]);
      if j == |words[i]| then ParseError
      else if k == |line| then if i == 2 then Bits({Bit(i, j)}) else Crash
      else ParseFrom(words, line[k + 1..], i + 1).With(Bit(i, j))
  }

  /** strchr(line, ' '). */
  method FindSpace(line: string) returns (p: nat)
    ensures p == FirstSpace(line)
  {
    p := 0;
    while p < |line| && line[p] != ' '
      invariant 0 <= p <= |line| && FirstSpace(line) == p + FirstSpace(line[p..])
    {
      assert line[p..][1..] == line[p + 1..];
      p := p + 1;
    }
  }

  method FindWord(words: seq<string>, w: string) returns (j: nat)
    ensures j == IndexIn(words, w)
  {
    j := 0;
    while j < |words| && w != words[j]
      invariant 0 <= j <= |words| && IndexIn(words, w) == j + IndexIn(words[j..], w)
    {
      assert words[j..][1..] == words[j + 1..];
      j := j + 1;
    }
  }

  /** status_parse. */
  method StatusParse(words: seq<seq<string>>, text: string) returns (r: Parsed)
    requires |words| == 3
    ensures r == ParseFrom(words, text, 0)
  {
    var line, l := text, {};
    for i := 0 to 3
      invariant ParseFrom(words, text, 0) == WithAll(ParseFrom(words, line, i), l)
    {
      var p := FindSpace(line);
      var j := FindWord(words[i], line[..p]);
      if j == |words[i]| {
        return ParseError;
      }
      if p == |line| {
        return if i == 2 then Bits(l + {Bit(i, j)}) else Crash;
      }
      WithBoth(ParseFrom(words, line[p + 1..], i + 1), l, Bit(i, j));
      l := l + {Bit(i, j)};
      line := line[p + 1..];
    }
    r := Bits(l);
  }

  function WithAll(p: Parsed, l: StatusBits): Parsed {
    if p.Bits? then Bits(l + p.bits) else p
  }

  lemma WithBoth(p: Parsed, l: StatusBits, b: nat)
    ensures WithAll(p.With(b), l) == WithAll(p, l + {b})
  {
    if p.Bits? {
      assert l + ({b} + p.bits) == (l + {b}) + p.bits;
    }
  }

  // ---------------------------------------------------------------------
  // Printing

  /** The first bit of field i, from j on, that is set. */
  function LowestFrom(i: nat, bits: StatusBits, j: nat): (k: nat)
    requires j <= FieldSize(i)
    ensures j <= k <= FieldSize(i)
    ensures k < FieldSize(i) ==> Bit(i, k) in bits
    ensures forall m :: j <= m < k ==> Bit(i, m) !in bits
    decreases FieldSize(i) - j
  {
    if j == FieldSize(i) || Bit(i, j) in bits then j else LowestFrom(i, bits, j + 1)
  }

  function Lowest(i: nat, bits: StatusBits): nat {
    LowestFrom(i, bits, 0)
  }

  predicate HasBit(i: nat, bits: StatusBits) {
    Lowest(i, bits) < FieldSize(i)
  }

  predicate Printable(bits: StatusBits) {
    HasBit(0, bits) && HasBit(1, bits) && HasBit(2, bits)
  }

  function PrintWith(words: seq<seq<string>>, bits: StatusBits): string
    requires Table(words)
  {
    if Printable(bits)
    then words[0][Lowest(0, bits)] + " " + (words[1][Lowest(1, bits)] + " " + words[2][Lowest(2, bits)])
    else "(null)"
  }

  /** status_print: the loops over the table. */
  method StatusPrint(words: seq<seq<string>>, flags: StatusBits) returns (buf: Option<string>)
    requires Table(words)
    ensures buf.Some? <==> Printable(flags)
    ensures buf.Some? ==> buf.value == PrintWith(words, flags)
  {
    var text := "";
    for i := 0 to 3
      invariant forall k :: 0 <= k < i ==> HasBit(k, flags)
      invariant text == PrintedUpTo(words, flags, i)
    {
      var j := 0;
      while j < |words[i]| && Bit(i, j) !in flags
        invariant 0 <= j <= |words[i]| && Lowest(i, flags) == LowestFrom(i, flags, j)
      {
        j := j + 1;
      }
      if j == |words[i]| {
        assert !HasBit(i, flags);
        return None;
      }
      text := text + words[i][j];
      if i < 2 {
        text := text + " ";
      }
    }
    assert HasBit(0, flags) && HasBit(1, flags) && HasBit(2, flags);
    PrintedAll(words, flags);
    buf := Some(text);
  }

  ghost function PrintedUpTo(words: seq<seq<string>>, bits: StatusBits, n: nat): string
    requires Table(words) && n <= 3 && forall k :: 0 <= k < n ==> HasBit(k, bits)
  {
    if n == 0 then ""
    else
      assert HasBit(n - 1, bits);
      PrintedUpTo(words, bits, n - 1) + words[n - 1][Lowest(n - 1, bits)] + if n < 3 then " " else ""
  }

  lemma PrintedAll(words: seq<seq<string>>, bits: StatusBits)
    requires Table(words) && Printable(bits)
    ensures PrintedUpTo(words, bits, 3) == PrintWith(words, bits)
  {
    var a, b, c := words[0][Lowest(0, bits)], words[1][Lowest(1, bits)], words[2][Lowest(2, bits)];
    assert PrintedUpTo(words, bits, 1) == a + " ";
    assert PrintedUpTo(words, bits, 2) == a + " " + b + " ";
    assert PrintedUpTo(words, bits, 3) == a + " " + b + " " + c;
    assert a + " " + b + " " + c == a + " " + (b + " " + c);
  }

  // ---------------------------------------------------------------------
  // Round trip

  lemma WordIsFound(words: seq<seq<string>>, i: nat, j: nat)
    requires Table(words) && i < 3 && j < |words[i]|
    ensures IndexIn(words[i], words[i][j]) == j
  {
  }

  lemma ParseWord(words: seq<seq<string>>, i: nat, j: nat, rest: string)
    requires Table(words) && i < 2 && j < |words[i]|
    ensures ParseFrom(words, words[i][j] + " " + rest, i) == ParseFrom(words, rest, i + 1).With(Bit(i, j))
  {
    WordIsFound(words, i, j);
    var w := words[i][j];
    var line := w + " " + rest;
    assert line[|w|] == ' ' && line[..|w|] == w && line[|w| + 1..] == rest;
    assert forall k :: 0 <= k < |w| ==> line[k] == w[k] && w[k] in w;
    assert FirstSpace(line) == |w|;
  }

  lemma ParseLastWord(words: seq<seq<string>>, j: nat)
    requires Table(words) && j < |words[2]|
    ensures ParseFrom(words, words[2][j], 2) == Bits({Bit(2, j)})
  {
    WordIsFound(words, 2, j);
    var w := words[2][j];
    assert forall k :: 0 <= k < |w| ==> w[k] in w;
    assert FirstSpace(w) == |w| && w[..|w|] == w;
  }

  /** What comes back after printing: the lowest bit of each field. */
  lemma ParsePrinted(words: seq<seq<string>>, bits: StatusBits)
    requires Table(words) && Printable(bits)
    ensures ParseFrom(words, PrintWith(words, bits), 0) ==
            Bits({Bit(0, Lowest(0, bits)), Bit(1, Lowest(1, bits)), Bit(2, Lowest(2, bits))})
  {
    var b, c := words[1][Lowest(1, bits)], words[2][Lowest(2, bits)];
    ParseWord(words, 0, Lowest(0, bits), b + " " + c);
    ParseWord(words, 1, Lowest(1, bits), c);
    ParseLastWord(words, Lowest(2, bits));
  }

  lemma LowestOfOne(bits: StatusBits)
    ensures bits == {Bit(0, Lowest(0, bits)), Bit(1, Lowest(1, bits)), Bit(2, Lowest(2, bits))} && Printable(bits)
            <==> OneBitEach(bits)
  {
    if OneBitEach(bits) {
      var w, f, s :| 0 <= w < FieldSize(0) && 0 <= f < FieldSize(1) && 0 <= s < FieldSize(2)
                     && bits == {Bit(0, w), Bit(1, f), Bit(2, s)};
      assert Bit(0, w) in bits && Bit(1, f) in bits && Bit(2, s) in bits;
      assert Lowest(0, bits) == w && Lowest(1, bits) == f && Lowest(2, bits) == s;
    }
  }

  // ---------------------------------------------------------------------
  // With udpkg's own words

  function ParseStatus(line: string): Parsed {
    ParseFrom(STATUS_WORDS, line, 0)
  }

  /** status_print with the "%s" of its callers: a null result prints as "(null)". */
  function PrintStatus(bits: StatusBits): string {
    StatusWordsAreTable();
    PrintWith(STATUS_WORDS, bits)
  }

  /** The status survives printing and parsing exactly when each field has one bit,
      or when it is empty; and nothing that is printed crashes the parser. */
  lemma StatusRoundTripIff(bits: StatusBits)
    ensures !ParseStatus(PrintStatus(bits)).Crash?
    ensures ParseStatus(PrintStatus(bits)).Value() == bits <==> bits == {} || OneBitEach(bits)
  {
    StatusWordsAreTable();
    LowestOfOne(bits);
    if Printable(bits) {
      ParsePrinted(STATUS_WORDS, bits);
    } else {
      NullIsNoWord();
    }
  }

  lemma NullIsNoWord()
    ensures ParseStatus("(null)") == ParseError
  {
    assert FirstSpace("(null)") == 6 && "(null)"[..6] == "(null)";
    assert "(null)"[0] == '(';
    assert forall j :: 0 <= j < |STATUS_WORDS[0]| ==> STATUS_WORDS[0][j][0] != '(';
  }

  lemma LowestIs(w: nat, f: nat, s: nat)
    requires w < FieldSize(0) && f < FieldSize(1) && s < FieldSize(2)
    ensures var bits := {Bit(0, w), Bit(1, f), Bit(2, s)};
      Lowest(0, bits) == w && Lowest(1, bits) == f && Lowest(2, bits) == s
  {
  }

  /** Each choice of three words stands for its three bits. */
  lemma WordsOfBits(w: nat, f: nat, s: nat)
    requires w < FieldSize(0) && f < FieldSize(1) && s < FieldSize(2)
    ensures var line := STATUS_WORDS[0][w] + " " + (STATUS_WORDS[1][f] + " " + STATUS_WORDS[2][s]);
      PrintStatus({w, 5 + f, 9 + s}) == line && ParseStatus(line) == Bits({w, 5 + f, 9 + s})
  {
    StatusWordsAreTable();
    WordsWithTable(STATUS_WORDS, w, f, s);
  }

  lemma WordsWithTable(words: seq<seq<string>>, w: nat, f: nat, s: nat)
    requires Table(words) && w < FieldSize(0) && f < FieldSize(1) && s < FieldSize(2)
    ensures var line := words[0][w] + " " + (words[1][f] + " " + words[2][s]);
      PrintWith(words, {w, 5 + f, 9 + s}) == line && ParseFrom(words, line, 0) == Bits({w, 5 + f, 9 + s})
  {
    LowestIs(w, f, s);
    ParsePrinted(words, {w, 5 + f, 9 + s});
  }

  /** The bits of the words, as the header numbers them: want from 0, flag from 5,
      status from 9 on. */
  lemma WantNames()
    ensures STATUS_WORDS[0][0] == "unknown" && STATUS_WORDS[0][1] == "install" && STATUS_WORDS[0][2] == "hold"
    ensures STATUS_WORDS[0][3] == "deinstall" && STATUS_WORDS[0][4] == "purge"
    ensures STATUS_WORDS[1][0] == "ok" && STATUS_WORDS[1][1] == "reinstreq" && STATUS_WORDS[1][2] == "hold"
    ensures STATUS_WORDS[1][3] == "hold-reinstreq"
  {
  }

  lemma StateNames()
    ensures STATUS_WORDS[2][0] == "not-installed" && STATUS_WORDS[2][1] == "unpacked"
    ensures STATUS_WORDS[2][2] == "half-configured" && STATUS_WORDS[2][3] == "installed"
    ensures STATUS_WORDS[2][4] == "half-installed" && STATUS_WORDS[2][5] == "config-files"
    ensures STATUS_WORDS[2][6] == "post-inst-failed" && STATUS_WORDS[2][7] == "removal-failed"
  {
  }

  lemma OnlyWord(words: seq<string>, size: nat, j: nat, k: nat)
    requires Row(words, size) && j < size && k < size
    ensures words[j] == words[k] <==> j == k
  {
  }

  lemma OkInstalledWords(f: nat, s: nat)
    requires f < FieldSize(1) && s < FieldSize(2)
    ensures STATUS_WORDS[1][f] == "ok" <==> f == 0
    ensures STATUS_WORDS[2][s] == "installed" <==> s == 3
  {
    FlagWords();
    StateWords();
    WantNames();
    StateNames();
    OnlyWord(STATUS_WORDS[1], FieldSize(1), f, 0);
    OnlyWord(STATUS_WORDS[2], FieldSize(2), s, 3);
  }

  /** Reading "install ok installed", and what the "ok" and "installed" bits are. */
  lemma InstalledWords(line: string)
    requires line == "install" + " " + ("ok" + " " + "installed")
    ensures ParseStatus(line) == Bits({1, 5, 12}) && PrintStatus({1, 5, 12}) == line
    ensures FLAG_OK == 5 && STATUS_INSTALLED == 12
  {
    WantNames();
    StateNames();
    WordsOfBits(1, 0, 3);
  }

  /** A deinstalled package whose configuration files are left, with a flag. */
  lemma RemovedWords(line: string)
    requires line == "deinstall" + " " + ("hold-reinstreq" + " " + "config-files")
    ensures ParseStatus(line) == Bits({3, 8, 14}) && PrintStatus({3, 8, 14}) == line
  {
    WantNames();
    StateNames();
    WordsOfBits(3, 3, 5);
  }
}

/** The Depends field of a control file: depends_split cuts a copy of it in
    place (packages/udpkg/depends.c). */
module UdpkgDependsField {

  const NUL: char := '\0'
  const VECTOR_SIZE: nat := 64

  datatype Pointer = Null | At(offset: nat)

  // ---------------------------------------------------------------------
  // What the split means

  function UpToEol(s: string): (t: string)
    ensures t <= s
    ensures forall c :: c in t ==> c != NUL && c != '\n'
    ensures |t| < |s| ==> s[|t|] == NUL || s[|t|] == '\n'
  {
    if s == [] || s[0] == NUL || s[0] == '\n' then [] else [s[0]] + UpToEol(s[1..])
  }

  function NextSegments(segments: seq<string>, c: char): (r: seq<string>)
    requires |segments| > 0
    ensures |r| > 0
  {
    var last := |segments| - 1;
    if c == ',' then segments + [[]] else segments[last := segments[last] + [c]]
  }

  /** The comma-separated pieces. */
  function Segments(s: string): (r: seq<string>)
    ensures |r| > 0
  {
    if s == [] then [[]]
    else
      var r := Segments(s[..|s| - 1]);
      var c := s[|s| - 1];
      NextSegments(r, c)
  }

  function SkipBlanks(s: string): string {
    if s != [] && s[0] == ' ' then SkipBlanks(s[1..]) else s
  }

  function Word(s: string): string {
    if s == [] || s[0] == ' ' then [] else [s[0]] + Word(s[1..])
  }

  function FirstWord(s: string): string {
    Word(SkipBlanks(s))
  }

  function UpToEmpty(words: seq<string>): seq<string> {
    if words == [] || words[0] == [] then [] else [words[0]] + UpToEmpty(words[1..])
  }

  function FirstWords(segments: seq<string>): (r: seq<string>)
    ensures |r| == |segments|
    ensures forall i :: 0 <= i < |r| ==> r[i] == FirstWord(segments[i])
  {
    seq(|segments|, i requires 0 <= i < |segments| => FirstWord(segments[i]))
  }

  /** The package names a Depends field asks for: the first word of each piece,
      up to the first piece that has none. */
  function Dependencies(depends: string): seq<string> {
    UpToEmpty(WordsOf(UpToEol(depends)))
  }

  // ---------------------------------------------------------------------
  // One more character

  /** The first word of s is still being read: no space has followed it. */
  predicate Running(s: string) {
    ' ' !in SkipBlanks(s)
  }

  lemma {:induction false} WordSnoc(s: string, c: char)
    ensures Word(s + [c]) == if ' ' !in s && c != ' ' then s + [c] else Word(s)
    ensures ' ' !in s ==> Word(s) == s
  {
    if s != [] && s[0] != ' ' {
      WordSnoc(s[1..], c);
      assert (s + [c])[1..] == s[1..] + [c];
      assert s == [s[0]] + s[1..];
    } else if s == [] {
      assert (s + [c])[1..] == [];
    }
  }

  lemma {:induction false} SkipSnoc(s: string, c: char)
    ensures SkipBlanks(s + [c]) == if SkipBlanks(s) == [] && c == ' ' then [] else SkipBlanks(s) + [c]
    ensures FirstWord(s) == [] <==> SkipBlanks(s) == []
  {
    if s == [] {
      assert (s + [c])[1..] == [];
    } else if s[0] == ' ' {
      SkipSnoc(s[1..], c);
      assert (s + [c])[1..] == s[1..] + [c];
    }
  }

  lemma FirstWordSnoc(s: string, c: char)
    ensures FirstWord(s + [c]) == if Running(s) && c != ' ' then FirstWord(s) + [c] else FirstWord(s)
    ensures Running(s + [c]) <==> Running(s) && (c != ' ' || FirstWord(s) == [])
    ensures FirstWord(s) == [] ==> Running(s)
  {
    SkipSnoc(s, c);
    WordSnoc(SkipBlanks(s), c);
  }

  lemma {:induction false} WordChars(s: string)
    ensures forall c :: c in Word(s) ==> c in s
  {
    if s != [] && s[0] != ' ' {
      WordChars(s[1..]);
    }
  }

  lemma {:induction false} SegmentChars(s: string)
    ensures forall seg, c :: seg in Segments(s) && c in seg ==> c in s
  {
    if s != [] {
      SegmentChars(s[..|s| - 1]);
    }
  }

  lemma {:induction false} SkipChars(s: string)
    ensures forall c :: c in SkipBlanks(s) ==> c in s
  {
    if s != [] && s[0] == ' ' {
      SkipChars(s[1..]);
    }
  }

  // ---------------------------------------------------------------------
  // The split in place

  /** The C string that starts at an offset of a buffer. */
  function CString(buf: seq<char>, offset: nat): string
    decreases |buf| - offset
  {
    if offset >= |buf| || buf[offset] == NUL then [] else [buf[offset]] + CString(buf, offset + 1)
  }

  ghost predicate Spells(buf: seq<char>, offset: nat, w: string)
    requires offset + |w| <= |buf|
  {
    forall k :: 0 <= k < |w| ==> buf[offset + k] == w[k]
  }

  lemma {:induction false} CStringOf(buf: seq<char>, offset: nat, w: string)
    requires offset + |w| < |buf| && Spells(buf, offset, w) && buf[offset + |w|] == NUL
    requires NUL !in w
    ensures CString(buf, offset) == w
    decreases |w|
  {
    if w != [] {
      assert buf[offset + 0] == w[0];
      forall k | 0 <= k < |w[1..]| ensures buf[offset + 1 + k] == w[1..][k] {
        assert buf[offset + (1 + k)] == w[1 + k];
      }
      CStringOf(buf, offset + 1, w[1..]);
    }
  }

  /** Where a word lies in the part of the buffer before p; open means that it
      is the one being read. */
  ghost predicate Holds(buf: seq<char>, p: nat, at: Pointer, w: string, open: bool)
    requires p < |buf|
  {
    if w == [] then at == Null
    else
      && at.At? && at.offset + |w| <= p && Spells(buf, at.offset, w)
      && (if open then at.offset + |w| == p else at.offset + |w| < p && buf[at.offset + |w|] == NUL)
  }

  /** All words but the last are complete; open says whether the last one is
      still being read. */
  ghost predicate Scanned(buf: seq<char>, p: nat, vec: seq<Pointer>, words: seq<string>, open: bool)
    requires p < |buf|
  {
    && |vec| == |words| > 0
    && (forall j :: 0 <= j < |vec| - 1 ==> Holds(buf, p, vec[j], words[j], false))
    && Holds(buf, p, vec[|vec| - 1], words[|vec| - 1], open)
    && (words[|vec| - 1] == [] ==> open)
  }

  /** What one turn of the loop does to the buffer, to the vector and to the words. */
  function NextBuffer(buf: seq<char>, p: nat): seq<char>
    requires p < |buf|
  {
    if buf[p] == ',' || buf[p] == ' ' then buf[p := NUL] else buf
  }

  function NextVector(vec: seq<Pointer>, c: char, p: nat): seq<Pointer>
    requires |vec| > 0
  {
    if c == ',' then vec + [Null]
    else if c != ' ' && vec[|vec| - 1] == Null then vec[|vec| - 1 := At(p)]
    else vec
  }

  function NextWords(words: seq<string>, open: bool, c: char): seq<string>
    requires |words| > 0
  {
    var last := |words| - 1;
    if c == ',' then words + [[]]
    else if open && c != ' ' then words[last := words[last] + [c]]
    else words
  }

  predicate NextOpen(words: seq<string>, open: bool, c: char)
    requires |words| > 0
  {
    c == ',' || (open && (c != ' ' || words[|words| - 1] == []))
  }

  lemma HoldsOn(buf: seq<char>, buf': seq<char>, p: nat, at: Pointer, w: string)
    requires p + 1 < |buf| == |buf'| && (forall k :: 0 <= k < p ==> buf'[k] == buf[k])
    requires Holds(buf, p, at, w, false)
    ensures Holds(buf', p + 1, at, w, false)
  {
  }

  lemma Extended(buf: seq<char>, p: nat, at: Pointer, w: string)
    requires p + 1 < |buf| && Holds(buf, p, at, w, true)
    ensures Holds(buf, p + 1, if at == Null then At(p) else at, w + [buf[p]], true)
  {
  }

  lemma Ended(buf: seq<char>, p: nat, at: Pointer, w: string)
    requires p + 1 < |buf| && w != [] && Holds(buf, p, at, w, true)
    ensures Holds(buf[p := NUL], p + 1, at, w, false)
  {
  }

  lemma Advance(buf: seq<char>, p: nat, vec: seq<Pointer>, words: seq<string>, open: bool)
    requires p + 1 < |buf| && Scanned(buf, p, vec, words, open)
    ensures Scanned(NextBuffer(buf, p), p + 1, NextVector(vec, buf[p], p), NextWords(words, open, buf[p]), NextOpen(words, open, buf[p]))
  {
    var buf', last := NextBuffer(buf, p), |vec| - 1;
    forall j | 0 <= j < last ensures Holds(buf', p + 1, vec[j], words[j], false) {
      HoldsOn(buf, buf', p, vec[j], words[j]);
    }
    if !open {
      HoldsOn(buf, buf', p, vec[last], words[last]);
    } else if buf[p] != ' ' && buf[p] != ',' {
      Extended(buf, p, vec[last], words[last]);
    } else if words[last] != [] {
      Ended(buf, p, vec[last], words[last]);
    }
  }

  /** The words of a line read so far, and whether the last one is open. */
  function WordsOf(line: string): (r: seq<string>)
    ensures |r| > 0
  {
    FirstWords(Segments(line))
  }

  predicate OpenAt(line: string) {
    var segments := Segments(line);
    Running(segments[|segments| - 1])
  }

  lemma WordsSnoc(line: string, c: char)
    ensures WordsOf(line + [c]) == NextWords(WordsOf(line), OpenAt(line), c)
    ensures OpenAt(line + [c]) <==> NextOpen(WordsOf(line), OpenAt(line), c)
  {
    assert (line + [c])[..|line|] == line;
    NextFirstWords(Segments(line), c);
  }

  lemma NextFirstWords(segments: seq<string>, c: char)
    requires |segments| > 0
    ensures var last, next := segments[|segments| - 1], NextSegments(segments, c);
      && FirstWords(next) == NextWords(FirstWords(segments), Running(last), c)
      && (Running(next[|next| - 1]) <==> NextOpen(FirstWords(segments), Running(last), c))
  {
    FirstWordSnoc(segments[|segments| - 1], c);
    var next, words := NextSegments(segments, c), FirstWords(segments);
    if c == ',' {
      assert FirstWords(next) == words + [[]];
    } else {
      var last := |segments| - 1;
      assert FirstWords(next) == words[last := FirstWord(segments[last] + [c])];
    }
  }

  lemma WordHasNoNul(line: string, j: nat)
    requires j < |Segments(line)| && NUL !in line
    ensures NUL !in FirstWord(Segments(line)[j])
  {
    SegmentChars(line);
    SkipChars(Segments(line)[j]);
    WordChars(SkipBlanks(Segments(line)[j]));
  }

  /** The body of the loop of depends_split. */
  method CutAt(buf: array<char>, vec: seq<Pointer>, p: nat) returns (vec': seq<Pointer>)
    requires p < buf.Length && |vec| > 0
    modifies buf
    ensures buf[..] == NextBuffer(old(buf[..]), p)
    ensures forall k :: 0 <= k < buf.Length && k != p ==> buf[k] == old(buf[k])
    ensures vec' == NextVector(vec, old(buf[p]), p)
  {
    vec' := vec;
    if buf[p] != ' ' {
      if buf[p] == ',' {
        buf[p] := NUL;
        vec' := vec' + [Null];
      } else if vec'[|vec'| - 1] == Null {
        vec' := vec'[|vec'| - 1 := At(p)];
      }
    } else {
      buf[p] := NUL;
    }
  }

  lemma AdvanceInLine(buf: seq<char>, p: nat, vec: seq<Pointer>, line: string)
    requires p < |line| && p + 1 < |buf| && buf[p] == line[p]
    requires Scanned(buf, p, vec, WordsOf(line[..p]), OpenAt(line[..p]))
    ensures Scanned(NextBuffer(buf, p), p + 1, NextVector(vec, buf[p], p), WordsOf(line[..p + 1]), OpenAt(line[..p + 1]))
  {
    assert line[..p + 1] == line[..p] + [line[p]];
    WordsSnoc(line[..p], line[p]);
    Advance(buf, p, vec, WordsOf(line[..p]), OpenAt(line[..p]));
  }

  method Copy(depends: string) returns (buf: array<char>)
    ensures fresh(buf) && buf[..] == depends + [NUL]
  {
    buf := new char[|depends| + 1](i requires 0 <= i <= |depends| => if i < |depends| then depends[i] else NUL);
  }

  /** The buffer still holds the uncut rest of the line, then its end. */
  ghost predicate Uncut(buf: seq<char>, p: nat, line: string) {
    && p <= |line| < |buf|
    && (buf[|line|] == NUL || buf[|line|] == '\n')
    && (forall k :: p <= k < |line| ==> buf[k] == line[k] != NUL && line[k] != '\n')
  }

  /** One turn of the loop of depends_split. */
  method CutOne(buf: array<char>, vec: seq<Pointer>, p: nat, ghost line: string) returns (vec': seq<Pointer>)
    requires Uncut(buf[..], p, line) && p < |line|
    requires Scanned(buf[..], p, vec, WordsOf(line[..p]), OpenAt(line[..p]))
    modifies buf
    ensures Uncut(buf[..], p + 1, line)
    ensures Scanned(buf[..], p + 1, vec', WordsOf(line[..p + 1]), OpenAt(line[..p + 1]))
  {
    AdvanceInLine(buf[..], p, vec, line);
    vec' := CutAt(buf, vec, p);
  }

  lemma WholeLine(depends: string)
    ensures Uncut(depends + [NUL], 0, UpToEol(depends))
    ensures Scanned(depends + [NUL], 0, [Null], WordsOf(UpToEol(depends)[..0]), OpenAt(UpToEol(depends)[..0]))
  {
    var line := UpToEol(depends);
    assert forall k :: 0 <= k < |line| ==> line[k] in line;
  }

  /** The loop of depends_split. */
  method CutLine(buf: array<char>, ghost depends: string) returns (vec: seq<Pointer>, p: nat)
    requires buf[..] == depends + [NUL]
    modifies buf
    ensures p == |UpToEol(depends)|
    ensures Scanned(buf[..], p, vec, WordsOf(UpToEol(depends)), OpenAt(UpToEol(depends)))
  {
    ghost var line := UpToEol(depends);
    WholeLine(depends);
    vec, p := [Null], 0;
    while buf[p] != NUL && buf[p] != '\n'
      invariant Uncut(buf[..], p, line)
      invariant Scanned(buf[..], p, vec, WordsOf(line[..p]), OpenAt(line[..p]))
      decreases |line| - p
    {
      assert buf[p] == buf[..][p];
      vec := CutOne(buf, vec, p, line);
      p := p + 1;
    }
    assert line[..p] == line;
  }

  /** depends_split: the vector of pointers into the cut copy of the field; fits says
      whether it stays inside its array. */
  method DependsSplit(depends: string) returns (buf: array<char>, vec: seq<Pointer>, fits: bool)
    ensures fits <==> |Segments(UpToEol(depends))| < VECTOR_SIZE
    ensures fresh(buf)
    ensures |vec| == |WordsOf(UpToEol(depends))| + 1 && vec[|vec| - 1] == Null
    ensures forall j :: 0 <= j < |vec| - 1 ==> PointsTo(buf[..], vec[j], WordsOf(UpToEol(depends))[j])
  {
    buf := Copy(depends);
    var p;
    vec, p := CutLine(buf, depends);
    ghost var scanned := buf[..];
    buf[p] := NUL;
    Terminated(scanned, buf[..], p, vec, UpToEol(depends));
    vec := vec + [Null];
    fits := |vec| <= VECTOR_SIZE;
  }

  ghost predicate PointsTo(buf: seq<char>, at: Pointer, w: string) {
    if w == [] then at == Null else at.At? && CString(buf, at.offset) == w
  }

  lemma HeldWord(buf: seq<char>, p: nat, at: Pointer, w: string, open: bool)
    requires p < |buf| && Holds(buf, p, at, w, open) && NUL !in w
    ensures PointsTo(buf[p := NUL], at, w)
  {
    if w != [] {
      CStringOf(buf[p := NUL], at.offset, w);
    }
  }

  lemma Terminated(buf: seq<char>, buf': seq<char>, p: nat, vec: seq<Pointer>, line: string)
    requires p < |buf| && buf' == buf[p := NUL] && NUL !in line
    requires Scanned(buf, p, vec, WordsOf(line), OpenAt(line))
    ensures forall j :: 0 <= j < |vec| ==> PointsTo(buf', vec[j], WordsOf(line)[j])
  {
    forall j | 0 <= j < |vec| ensures PointsTo(buf', vec[j], WordsOf(line)[j]) {
      WordHasNoNul(line, j);
      HeldWord(buf, p, vec[j], WordsOf(line)[j], j == |vec| - 1 && OpenAt(line));
    }
  }

  /** Walking the vector up to its first null pointer, as depends_resolve does. */
  method ReadVector(buf: array<char>, vec: seq<Pointer>, ghost words: seq<string>) returns (names: seq<string>)
    requires |vec| == |words| + 1 && vec[|words|] == Null
    requires forall j :: 0 <= j < |words| ==> PointsTo(buf[..], vec[j], words[j])
    ensures names == UpToEmpty(words)
  {
    names := [];
    var i := 0;
    while vec[i] != Null
      invariant 0 <= i <= |words|
      invariant UpToEmpty(words) == names + UpToEmpty(words[i..])
      decreases |words| - i
    {
      var name := ReadCString(buf, vec[i].offset);
      assert words[i..][1..] == words[i + 1..];
      names, i := names + [name], i + 1;
    }
  }

  method ReadCString(buf: array<char>, offset: nat) returns (s: string)
    ensures s == CString(buf[..], offset)
  {
    s := [];
    var p := offset;
    while p < buf.Length && buf[p] != NUL
      invariant CString(buf[..], offset) == s + CString(buf[..], p)
      decreases buf.Length - p
    {
      s, p := s + [buf[p]], p + 1;
    }
  }

  method ReadDepends(depends: string) returns (names: seq<string>)
    ensures names == Dependencies(depends)
  {
    var buf, vec, fits := DependsSplit(depends);
    names := ReadVector(buf, vec, WordsOf(UpToEol(depends)));
  }
}

/** For which secrets the Python and the Go parser read the same key. */
module Base32Agreement {
  import opened Wrappers
  import opened Base32
  import opened Base32Properties

  /** Letters, then padding, then nothing; repaired, the padding is one that a printing can have. */
  predicate IsKeyText(x: string) {
    var n := |Unpadded(x)|;
    AllLetters(Unpadded(x)) && IsPadding(x, n, |x|) && |Repad(x)| - n in {0, 1, 3, 4, 6}
  }

  lemma UnpaddedBefore(x: string, y: string)
    requires |Unpadded(x)| < |x| || y == [] || y[0] == '='
    ensures Unpadded(x + y) == Unpadded(x)
  {
    assert (x + y)[..|Unpadded(x)|] == Unpadded(x);
    UnpaddedIs(x + y, |Unpadded(x)|);
  }

  lemma MorePadding(x: string, n: nat, pad: string)
    requires n <= |x| && IsPadding(pad, 0, |pad|)
    ensures IsPadding(x + pad, n, |x + pad|) <==> IsPadding(x, n, |x|)
  {
    assert IsPadding(x + pad, n, |x + pad|) ==> forall i :: n <= i < |x| ==> x[i] == (x + pad)[i];
  }

  lemma FullBlocksDecodeIff(s: string)
    requires |s| % 8 == 0
    ensures var data := Unpadded(s);
            DecodePadded(s) == if AllLetters(data) && IsPadding(s, |data|, |s|) && |s| - |data| in {0, 1, 3, 4, 6}
                               then Some(Bytes(data)) else None
  {
    StripIsUnpaddedIff(s);
  }

  /** What Python's repair and its library accept together. */
  lemma RepairedDecodesIff(x: string)
    ensures DecodePadded(Repad(x)) == if IsKeyText(x) then Some(Bytes(Unpadded(x))) else None
  {
    var pad := Repeat('=', (8 - |x| % 8) % 8);
    RepadFills(x);
    UnpaddedBefore(x, pad);
    MorePadding(x, |Unpadded(x)|, pad);
    FullBlocksDecodeIff(x + pad);
  }

  predicate IsSpaces(s: string) {
    forall i :: 0 <= i < |s| ==> PySpace(s[i])
  }

  lemma Parts(s: string) returns (l: string, r: string)
    ensures Upper(Trim(false, s)) == l + Upper(Trim(true, s)) + r
    ensures forall i :: 0 <= i < |l| ==> PySpace(l[i])
    ensures forall i :: 0 <= i < |r| ==> PySpace(r[i])
    ensures (l != [] ==> IsSeparator(l[0])) && (r != [] ==> IsSeparator(r[|r| - 1]))
    ensures HasSeparator(s) <==> l != [] || r != [] || HasSeparator(Trim(true, s))
  {
    var before, after := Trimmed(false, s);
    var g := Trim(false, s);
    TrimSurrounded(true, before, g, after);
    l, r := Trimmed(true, g);
    var t := Trim(true, s);
    assert g == l + t + r;
    assert l != [] ==> l[0] == g[0];
    assert r != [] ==> r[|r| - 1] == g[|g| - 1];
    UpperParts(l, t, r);
    SeparatorIn(before, g, after);
    SeparatorIn(l, t, r);
  }

  /** White space that only Python strips stands in front of what Python strips the secret to, or behind it. */
  lemma Surroundings(s: string) returns (front: bool, r: string)
    ensures var g := Upper(Trim(false, s));
            if front then g != [] && IsSeparator(g[0]) else g == Upper(Trim(true, s)) + r
    ensures IsSpaces(r) && (r != [] ==> IsSeparator(r[|r| - 1]))
    ensures HasSeparator(s) <==> front || r != [] || HasSeparator(Trim(true, s))
  {
    var l;
    l, r := Parts(s);
    front := l != [];
    var x := Upper(Trim(true, s));
    assert if front then (l + x + r)[0] == l[0] else l + x + r == x + r;
  }

  lemma UpperParts(l: string, t: string, r: string)
    requires forall i :: 0 <= i < |l| ==> PySpace(l[i])
    requires forall i :: 0 <= i < |r| ==> PySpace(r[i])
    ensures Upper(l + t + r) == l + Upper(t) + r
  {
  }

  lemma SeparatorIn(l: string, t: string, r: string)
    ensures HasSeparator(l + t + r) <==> HasSeparator(l) || HasSeparator(t) || HasSeparator(r)
  {
    var s := l + t + r;
    assert forall i :: 0 <= i < |l| ==> s[i] == l[i];
    assert forall i :: 0 <= i < |t| ==> s[|l| + i] == t[i];
    assert forall i :: 0 <= i < |r| ==> s[|l| + |t| + i] == r[i];
  }

  lemma SeparatorInFrontRejects(s: string)
    requires s != [] && IsSeparator(s[0])
    ensures GoLibrary(s) == None
  {
    assert s == [s[0]] + s[1..];
    DropConcat([s[0]], s[1..]);
    assert DropNewlines([s[0]]) == [s[0]];
    assert Unpadded(DropNewlines(s))[0] == s[0];
  }

  /** Letters, then the padding that fills their last block, then anything. */
  predicate FillsBlock(x: string) {
    var n := |Unpadded(x)|;
    && AllLetters(Unpadded(x)) && n < |x|
    && n % 8 in {2, 4, 5, 7} && BlockEnd(n) <= |x| && IsPadding(x, n, BlockEnd(n))
  }

  /** Go overlooks what follows a text exactly when it follows a full padded block closely enough. */
  lemma TailIsHiddenIff(x: string, w: string)
    requires w != [] && w[0] != '=' && !IsLetter(w[0])
    ensures GoBlocks(x + w)
            == if FillsBlock(x) && |x + w| <= |Unpadded(x)| + 8 then Some(Bytes(Unpadded(x))) else None
  {
    var n := |Unpadded(x)|;
    if n == |x| {
      assert Unpadded(x + w)[n] == w[0];
    } else {
      UnpaddedBefore(x, w);
      assert (x + w)[|x|] == w[0];
      assert forall i :: n <= i < |x| ==> (x + w)[i] == x[i];
    }
  }

  lemma {:induction false} FirstLeft(r: string, pad: string)
    requires r != [] && IsSeparator(r[|r| - 1]) && forall i :: 0 <= i < |r| ==> PySpace(r[i])
    ensures var w := DropNewlines(r + pad); w != [] && PySpace(w[0])
  {
    assert r + pad == [r[0]] + (r[1..] + pad);
    DropConcat([r[0]], r[1..] + pad);
    assert [r[0]][..0] == [];
    if IsNewline(r[0]) {
      FirstLeft(r[1..], pad);
    }
  }

  lemma PythonReads(s: Ascii)
    requires Trim(true, s) != []
    ensures var x := Upper(Trim(true, s));
            PyDecode(s) == if IsKeyText(x) then Ok(Bytes(Unpadded(x))) else Err(BadBase32)
  {
    UpperTrim(true, s);
    RepairedDecodesIff(Upper(Trim(true, s)));
  }

  lemma KeyTextIsClean(x: string)
    requires IsKeyText(x)
    ensures !HasNewline(x) && !HasSeparator(x)
  {
    assert forall i :: 0 <= i < |Unpadded(x)| ==> x[i] == Unpadded(x)[i];
  }

  /** Without line breaks inside, and with space behind it that stays, Go reads a secret by its padded last block. */
  lemma GoReadsBefore(x: string, r: string)
    requires !HasNewline(x)
    requires r != [] && IsSeparator(r[|r| - 1]) && forall i :: 0 <= i < |r| ==> PySpace(r[i])
    ensures GoLibrary(Repad(x + r))
            == if FillsBlock(x) && |DropNewlines(Repad(x + r))| <= |Unpadded(x)| + 8
               then Some(Bytes(Unpadded(x))) else None
  {
    var pad := Repeat('=', (8 - |x + r| % 8) % 8);
    RepadFills(x + r);
    assert x + r + pad == x + (r + pad);
    DropNothing(x);
    DropConcat(x, r + pad);
    FirstLeft(r, pad);
    TailIsHiddenIff(x, DropNewlines(r + pad));
  }

  lemma GoReadsAlone(x: string)
    requires !HasNewline(x)
    ensures GoLibrary(Repad(x)) == if IsKeyText(x) then Some(Bytes(Unpadded(x))) else None
  {
    RepadFills(x);
    LibrariesAgree(Repad(x));
    RepairedDecodesIff(x);
  }

  lemma PaddedBlocks(n: nat, size: nat, full: nat)
    requires n < size && full == size + (8 - size % 8) % 8 && full - n in {1, 3, 4, 6}
    ensures n % 8 in {2, 4, 5, 7} && (size % 8 == 0 <==> BlockEnd(n) <= size) && BlockEnd(n) == full
  {
    var q, left := n / 8, n % 8;
    assert full % 8 == 0;
    assert full == 8 * (full / 8) && n == 8 * q + left;
    assert full / 8 == q + 1;
  }

  /** The rest of the text follows the key text's full last block, and closely enough for Go to overlook it. */
  predicate IsHidden(g: string, x: string) {
    var n := |Unpadded(x)|;
    x <= g && n < |x| && |x| % 8 == 0 && |DropNewlines(Repad(g))| <= n + 8
  }

  lemma KeyBlocks(x: string, n: nat, size: nat)
    requires IsKeyText(x) && n == |Unpadded(x)| < |x| == size
    ensures n % 8 in {2, 4, 5, 7} && (size % 8 == 0 <==> BlockEnd(n) <= size)
  {
    RepadFills(x);
    PaddedBlocks(n, size, |Repad(x)|);
  }

  lemma KeyFillsBlock(x: string)
    requires IsKeyText(x)
    ensures FillsBlock(x) <==> |Unpadded(x)| < |x| && |x| % 8 == 0
  {
    if |Unpadded(x)| < |x| {
      KeyBlocks(x, |Unpadded(x)|, |x|);
    }
  }

  lemma GoReadsKeyBefore(x: string, r: string)
    requires IsKeyText(x)
    requires r != [] && IsSeparator(r[|r| - 1]) && forall i :: 0 <= i < |r| ==> PySpace(r[i])
    ensures GoLibrary(Repad(x + r)) == if IsHidden(x + r, x) then Some(Bytes(Unpadded(x))) else None
  {
    KeyTextIsClean(x);
    GoReadsBefore(x, r);
    KeyFillsBlock(x);
  }

  lemma GoRefusesFront(g: string, x: string)
    requires IsKeyText(x) && x != [] && g != [] && IsSeparator(g[0])
    ensures GoLibrary(Repad(g)) == None && !IsHidden(g, x)
  {
    KeyTextIsClean(x);
    RepadFills(g);
    SeparatorInFrontRejects(Repad(g));
    assert !IsSeparator(x[0]);
  }

  lemma GoReadsKeyAlone(x: string)
    requires IsKeyText(x)
    ensures GoLibrary(Repad(x)) == Some(Bytes(Unpadded(x)))
  {
    KeyTextIsClean(x);
    GoReadsAlone(x);
  }

  lemma GoReadsKey(g: string, front: bool, x: string, r: string)
    requires IsKeyText(x) && x != [] && IsSpaces(r) && (r != [] ==> IsSeparator(r[|r| - 1]))
    requires if front then g != [] && IsSeparator(g[0]) else g == x + r
    ensures (!front && r == []) || IsHidden(g, x) ==> GoLibrary(Repad(g)) == Some(Bytes(Unpadded(x)))
    ensures !((!front && r == []) || IsHidden(g, x)) ==> GoLibrary(Repad(g)) == None
  {
    if front {
      GoRefusesFront(g, x);
    } else if r != [] {
      GoReadsKeyBefore(x, r);
    } else {
      assert g == x;
      GoReadsKeyAlone(x);
    }
  }

  /** White space that Go leaves in place follows the secret, but hidden behind its padded last block. */
  predicate SpaceIsHidden(s: string) {
    IsHidden(Upper(Trim(false, s)), Upper(Trim(true, s)))
  }

  /** A key that Python accepts is the key of Go exactly when the secret has no information separator, or only such
      as are hidden behind its padding. If both accept, they read the same key. */
  lemma GoFollowsPythonIff(s: Ascii)
    requires PyDecode(s).Ok?
    ensures GoDecode(s) == Some(PyDecode(s).value) <==> !HasSeparator(s) || SpaceIsHidden(s)
    ensures GoDecode(s).Some? ==> GoDecode(s).value == PyDecode(s).value
  {
    var front, r := Surroundings(s);
    var x := Upper(Trim(true, s));
    PythonReads(s);
    KeyTextIsClean(x);
    SeparatorsUpper(Trim(true, s));
    GoReadsKey(Upper(Trim(false, s)), front, x, r);
  }

  lemma SeparatorsUpper(t: string)
    ensures HasSeparator(Upper(t)) <==> HasSeparator(t)
    ensures HasNewline(Upper(t)) <==> HasNewline(t)
  {
    assert forall i :: 0 <= i < |t| ==> (IsSeparator(Upper(t)[i]) <==> IsSeparator(t[i]));
    assert forall i :: 0 <= i < |t| ==> (IsNewline(Upper(t)[i]) <==> IsNewline(t[i]));
  }

  /** Nothing but padding follows the first padding character, and repaired it is less than a block. */
  predicate PaddingIsLast(x: string) {
    IsPadding(x, |Unpadded(x)|, |x|) && |Repad(x)| < |Unpadded(x)| + 8
  }

  lemma LastBlock(n: nat, size: nat, full: nat)
    requires n < size && full == size + (8 - size % 8) % 8
    requires n % 8 in {2, 4, 5, 7} && BlockEnd(n) <= size
    ensures full - n in {0, 1, 3, 4, 6} <==> full < n + 8
  {
    var q, left := n / 8, n % 8;
    assert full % 8 == 0 && full == 8 * (full / 8);
    if full < n + 8 {
      assert full / 8 == q + 1;
    }
  }

  lemma FullLastBlock(x: string)
    requires FillsBlock(x)
    ensures IsKeyText(x) <==> PaddingIsLast(x)
  {
    RepadFills(x);
    LastBlock(|Unpadded(x)|, |x|, |Repad(x)|);
  }

  /** What Go reads of a text without line breaks, with white space behind it or not, is the key of that text
      exactly when the padding ends the text. */
  lemma KeyOfGo(x: string, r: string)
    requires !HasNewline(x)
    requires r != [] ==> IsSeparator(r[|r| - 1])
    requires forall i :: 0 <= i < |r| ==> PySpace(r[i])
    requires GoLibrary(Repad(x + r)).Some?
    ensures AllLetters(Unpadded(x)) && GoLibrary(Repad(x + r)) == Some(Bytes(Unpadded(x)))
    ensures IsKeyText(x) <==> PaddingIsLast(x)
  {
    if r == [] {
      assert x + r == x;
      GoReadsAlone(x);
    } else {
      GoReadsBefore(x, r);
      FullLastBlock(x);
    }
  }

  /** A non-blank key that Go accepts is the key of Python exactly when Python's secret has no line break inside and
      nothing after the padding of its last block. */
  lemma PythonFollowsGoIff(s: Ascii)
    requires GoDecode(s).Some? && Trim(true, s) != []
    ensures PyDecode(s) == Ok(GoDecode(s).value) <==> !HasNewline(Trim(true, s)) && PaddingIsLast(Upper(Trim(true, s)))
  {
    var front, r := Surroundings(s);
    var g, x := Upper(Trim(false, s)), Upper(Trim(true, s));
    if front {
      RepadFills(g);
      SeparatorInFrontRejects(Repad(g));
    }
    PythonReads(s);
    SeparatorsUpper(Trim(true, s));
    if HasNewline(x) {
      NewlineRejectedByPython(s);
    } else {
      KeyOfGo(x, r);
    }
  }

  // ---------------------------------------------------------------- secrets on which they part

  const SEPARATOR := "\U{1c}"

  lemma LettersStay(s: string, before: string, after: string)
    requires before != [] && after != [] && AllLetters(before) && AllLetters(after)
    requires |s| >= 1 && s[0] == before[0] && s[|s| - 1] == after[|after| - 1]
    ensures Trim(false, s) == s && Trim(true, s) == s
  {
    TrimKeeps(false, s);
    TrimKeeps(true, s);
  }

  lemma SeparatorBefore(e: Ascii)
    requires e != [] && AllLetters(e)
    ensures var s := SEPARATOR + e;
            IsAscii(s) && HasSeparator(s) && PyDecode(s) == PyDecode(e) && GoDecode(s) == None
  {
    var s := SEPARATOR + e;
    assert s[0] == SEPARATOR[0];
    assert s[|s| - 1] == e[|e| - 1];
    assert s == SEPARATOR + e + [];
    DecodingIgnoresSurroundings(SEPARATOR, e, []);
    TrimKeeps(false, s);
    RepadFills(Upper(s));
    SeparatorInFrontRejects(Repad(Upper(s)));
  }

  /** Every printed key can be written so that Python reads it and Go refuses it. */
  lemma SeparatorPartsThem(bytes: seq<Byte>)
    requires bytes != []
    ensures var s := SEPARATOR + EncodeUnpadded(bytes);
            IsAscii(s) && HasSeparator(s) && PyDecode(s) == Ok(bytes) && GoDecode(s) == None
  {
    EncodedIsLetters(bytes);
    RoundTrip(bytes);
    EncodedLength(bytes);
    SeparatorBefore(EncodeUnpadded(bytes));
  }

  lemma {:induction false} OnlyNewlines(s: string)
    requires forall i :: 0 <= i < |s| ==> IsNewline(s[i])
    ensures DropNewlines(s) == []
  {
    if s != [] {
      OnlyNewlines(s[..|s| - 1]);
    }
  }

  /** Line feeds and carriage returns. */
  predicate AreBreaks(s: string) {
    forall i :: 0 <= i < |s| ==> s[i] as int == 10 || s[i] as int == 13
  }

  /** Eight breaks change neither what Go repairs nor what its library reads. */
  lemma BreaksAreDropped(x: string, breaks: string, y: string)
    requires |breaks| == 8 && AreBreaks(breaks)
    ensures DropNewlines(Repad(x + breaks + y)) == DropNewlines(Repad(x + y))
  {
    var left := |x + y| % 8;
    var pad := Repeat('=', (8 - left) % 8);
    RepadWith(x + y, left);
    RepadWith(x + breaks + y, left);
    BreaksInFront(x, breaks, y + pad);
    assert x + breaks + y + pad == x + (breaks + (y + pad));
    assert x + y + pad == x + (y + pad);
  }

  lemma RepadWith(s: string, left: nat)
    requires |s| % 8 == left
    ensures Repad(s) == s + Repeat('=', (8 - left) % 8)
  {
    RepadFills(s);
  }

  lemma BreaksInFront(x: string, breaks: string, y: string)
    requires forall i :: 0 <= i < |breaks| ==> IsNewline(breaks[i])
    ensures DropNewlines(x + (breaks + y)) == DropNewlines(x + y)
  {
    DropConcat(x, breaks + y);
    DropConcat(breaks, y);
    OnlyNewlines(breaks);
    assert DropNewlines(breaks + y) == DropNewlines(y);
    DropConcat(x, y);
  }

  lemma LettersAround(x: Ascii, middle: Ascii, y: Ascii)
    requires x != [] && y != [] && AllLetters(x) && AllLetters(y)
    requires forall i :: 0 <= i < |middle| ==> IsNewline(middle[i])
    ensures var s := x + middle + y;
            IsAscii(s) && Trim(false, s) == s && Trim(true, s) == s && Upper(s) == s
  {
    LettersStay(x + middle + y, x, y);
  }

  lemma NewlineBetween(x: string, middle: string, y: string)
    requires HasNewline(middle)
    ensures HasNewline(x + middle + y)
  {
    var i :| 0 <= i < |middle| && IsNewline(middle[i]);
    assert (x + middle + y)[|x| + i] == middle[i];
  }

  lemma BreaksRefused(x: Ascii, breaks: Ascii, y: Ascii, s: Ascii)
    requires x != [] && y != [] && AllLetters(x) && AllLetters(y) && breaks != [] && AreBreaks(breaks)
    requires s == x + breaks + y
    ensures Trim(false, s) == s && Upper(s) == s && Trim(true, s) == s && HasNewline(s) && PyDecode(s) == Err(BadBase32)
  {
    LettersAround(x, breaks, y);
    assert IsNewline(breaks[0]);
    NewlineBetween(x, breaks, y);
    NewlineRejectedByPython(s);
  }

  lemma LettersAreWhole(e: Ascii)
    requires AllLetters(e)
    ensures Trim(false, e) == e && Upper(e) == e
  {
    TrimKeeps(false, e);
  }

  lemma BreaksInside(x: Ascii, breaks: Ascii, y: Ascii, s: Ascii, e: Ascii)
    requires x != [] && y != [] && AllLetters(x) && AllLetters(y) && |breaks| == 8 && AreBreaks(breaks)
    requires s == x + breaks + y && e == x + y
    ensures GoDecode(s) == GoDecode(e)
  {
    BreaksRefused(x, breaks, y, s);
    LettersAreWhole(e);
    BreaksAreDropped(x, breaks, y);
  }

  /** Every printed key with eight line breaks inside is the same key to Go, and none to Python. */
  lemma LineBreaksPartThem(bytes: seq<Byte>, x: Ascii, breaks: Ascii, y: Ascii, s: Ascii)
    requires x != [] && y != [] && x + y == EncodeUnpadded(bytes) && |breaks| == 8 && AreBreaks(breaks)
    requires s == x + breaks + y
    ensures HasNewline(Trim(true, s)) && GoDecode(s) == Some(bytes) && PyDecode(s) == Err(BadBase32)
  {
    RoundTrip(bytes);
    EncodedIsLetters(bytes);
    assert forall i :: 0 <= i < |x| ==> x[i] == (x + y)[i];
    assert forall i :: 0 <= i < |y| ==> y[i] == (x + y)[|x| + i];
    BreaksRefused(x, breaks, y, s);
    BreaksInside(x, breaks, y, s, x + y);
  }

  const HIDDEN: string := "\n" + SEPARATOR

  lemma HiddenDropped(pad: string)
    requires !HasNewline(pad)
    ensures DropNewlines(HIDDEN + pad) == SEPARATOR + pad
  {
    assert HIDDEN + pad == "\n" + (SEPARATOR + pad);
    DropConcat("\n", SEPARATOR + pad);
    OnlyNewlines("\n");
    DropNothing(SEPARATOR + pad);
  }

  lemma HiddenLength(x: string, left: nat)
    requires |x| % 8 == left <= 1 && !HasNewline(x)
    ensures |DropNewlines(Repad(x + HIDDEN))| == |x| + 7 - left
  {
    var pad := Repeat('=', 6 - left);
    RepadWith(x + HIDDEN, left + 2);
    assert x + HIDDEN + pad == x + (HIDDEN + pad);
    DropConcat(x, HIDDEN + pad);
    HiddenDropped(pad);
    DropNothing(x);
  }

  lemma UnpaddedUpTo(e: string, x: string)
    requires AllLetters(e) && |e| < |x| && x[..|e|] == e && x[|e|] == '='
    ensures Unpadded(x) == e
  {
    assert forall i :: 0 <= i < |e| ==> e[i] != '=';
    UnpaddedIs(x, |e|);
  }

  lemma SevenLeft(n: nat, size: nat)
    requires n % 8 == 7 && n < size <= n + 2
    ensures BlockEnd(n) == n + 1 && size % 8 == size - n - 1
  {
  }

  /** Seven letters, or fifteen and so on, and a padding character make a full block. */
  lemma SevenFillBlock(x: string)
    requires AllLetters(Unpadded(x)) && |Unpadded(x)| % 8 == 7 && |Unpadded(x)| < |x| <= |Unpadded(x)| + 2
    ensures FillsBlock(x)
  {
    SevenLeft(|Unpadded(x)|, |x|);
  }

  lemma TrimsOfHidden(x: Ascii, hidden: Ascii, s: Ascii)
    requires s == x + hidden && x != [] && hidden != [] && IsSeparator(hidden[|hidden| - 1])
    requires NoSpaceAtEnds(true, x) && forall i :: 0 <= i < |hidden| ==> PySpace(hidden[i])
    ensures HasSeparator(s) && PyDecode(s) == PyDecode(x) && Trim(true, s) == x && Trim(false, s) == s
  {
    assert s[|s| - 1] == hidden[|hidden| - 1];
    assert [] + x + hidden == s;
    TrimSurrounded(true, [], x, hidden);
    DecodingIgnoresSurroundings([], x, hidden);
    TrimKeeps(true, x);
    TrimKeeps(false, s);
  }

  lemma UpperHidden(x: string, g: string)
    requires Upper(x) == x && g == x + HIDDEN
    ensures Upper(g) == g
  {
    assert forall i :: 0 <= i < |x| ==> Upper(x)[i] == x[i];
  }

  lemma HiddenBehind(x: Ascii, s: Ascii)
    requires x != [] && NoSpaceAtEnds(true, x) && Upper(x) == x && s == x + HIDDEN
    ensures HasSeparator(s) && Trim(true, s) == x && Trim(true, x) == x
    ensures PyDecode(s) == PyDecode(x) && GoDecode(s) == GoLibrary(Repad(x + HIDDEN))
  {
    TrimsOfHidden(x, HIDDEN, s);
    TrimKeeps(true, x);
    UpperHidden(x, s);
  }

  lemma LettersAndMore(e: string, more: string)
    requires e != [] && more != [] && AllLetters(e) && forall i :: 0 <= i < |more| ==> more[i] == '=' || more[i] == '!'
    ensures var x := e + more;
            && IsAscii(x) && Upper(x) == x && NoSpaceAtEnds(true, x) && !HasNewline(x)
            && x[..|e|] == e && x[|e|] == more[0]
  {
  }

  lemma OverlookedText(e: string, more: string, x: string)
    requires AllLetters(e) && e != [] && more in {"=", "=!"} && x == e + more
    ensures Unpadded(x) == e && IsAscii(x) && x != [] && NoSpaceAtEnds(true, x) && Upper(x) == x && !HasNewline(x)
  {
    LettersAndMore(e, more);
    UnpaddedUpTo(e, x);
  }

  lemma OverlookedByGo(x: string)
    requires AllLetters(Unpadded(x)) && |Unpadded(x)| % 8 == 7 && |Unpadded(x)| < |x| <= |Unpadded(x)| + 2
    requires !HasNewline(x)
    ensures GoLibrary(Repad(x + HIDDEN)) == Some(Bytes(Unpadded(x)))
  {
    SevenLeft(|Unpadded(x)|, |x|);
    SevenFillBlock(x);
    HiddenLength(x, |x| - |Unpadded(x)| - 1);
    GoReadsBefore(x, HIDDEN);
  }

  lemma OnePadIsKey(e: string, x: string)
    requires AllLetters(e) && |e| % 8 == 7 && x == e + "=" && Unpadded(x) == e
    ensures IsKeyText(x)
  {
    RepadFills(x);
  }

  /** A separator behind a padded key and a line break is overlooked: both read the key. */
  lemma HiddenSeparatorDoesNot(e: Ascii, x: Ascii, s: Ascii)
    requires AllLetters(e) && |e| % 8 == 7 && x == e + "=" && s == x + HIDDEN
    ensures HasSeparator(s) && PyDecode(s) == Ok(Bytes(e)) && GoDecode(s) == Some(Bytes(e))
  {
    OverlookedText(e, "=", x);
    OverlookedByGo(x);
    HiddenBehind(x, s);
    OnePadIsKey(e, x);
    PythonReads(x);
  }

  lemma GarbageIsNoKey(e: string, x: string)
    requires Unpadded(x) == e && x == e + "=!"
    ensures !PaddingIsLast(x) && !IsKeyText(x)
  {
    assert x[|e| + 1] == '!';
  }

  /** So is garbage between the padding and that line break: Go reads the key, and Python refuses it. */
  lemma GarbagePartsThem(e: Ascii, x: Ascii, s: Ascii)
    requires AllLetters(e) && |e| % 8 == 7 && x == e + "=!" && s == x + HIDDEN
    ensures Trim(true, s) == x && !HasNewline(x) && !PaddingIsLast(Upper(x))
    ensures GoDecode(s) == Some(Bytes(e)) && PyDecode(s) == Err(BadBase32)
  {
    OverlookedText(e, "=!", x);
    OverlookedByGo(x);
    HiddenBehind(x, s);
    GarbageIsNoKey(e, x);
    PythonReads(x);
  }
}

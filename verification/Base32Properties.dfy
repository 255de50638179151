/** The parsers undo the printer and ignore case and surrounding white space, and the two standard libraries decode
    full blocks without line breaks alike. */
module Base32Properties {
  import opened Wrappers
  import opened Base32

  // ---------------------------------------------------------------- round trip

  lemma ValueOfLetter(v: nat)
    requires v < 32
    ensures IsLetter(Letter(v)) && Value(Letter(v)) == v
  {
  }

  lemma EncodedIsLetters(bytes: seq<Byte>)
    ensures AllLetters(EncodeUnpadded(bytes))
    ensures Values(EncodeUnpadded(bytes)) == Cut(FilledBits(bytes), 5)
  {
    var groups := Cut(FilledBits(bytes), 5);
    CutIsSmall(FilledBits(bytes), 5);
    forall i | 0 <= i < |groups|
      ensures IsLetter(EncodeUnpadded(bytes)[i]) && Value(EncodeUnpadded(bytes)[i]) == groups[i]
    {
      ValueOfLetter(groups[i]);
    }
  }

  lemma RoundedUpToFive(n: nat)
    ensures n + (5 - n % 5) % 5 == (n + 4) / 5 * 5
  {
  }

  lemma FilledLength(bytes: seq<Byte>)
    ensures |FilledBits(bytes)| == (8 * |bytes| + 4) / 5 * 5
  {
    StreamLength(bytes, 8);
    RoundedUpToFive(8 * |bytes|);
  }

  /** The printed length leaves only the paddings that the parsers accept. */
  lemma EncodedLength(bytes: seq<Byte>)
    ensures |EncodeUnpadded(bytes)| == (8 * |bytes| + 4) / 5
    ensures Stream(Cut(FilledBits(bytes), 5), 5) == FilledBits(bytes)
    ensures |EncodeUnpadded(bytes)| % 8 in {0, 2, 4, 5, 7}
  {
    FilledLength(bytes);
    StreamCut(FilledBits(bytes), 5, (8 * |bytes| + 4) / 5);
    PrintedLengths(|bytes|);
  }

  lemma PrintedLengths(n: nat)
    ensures (8 * n + 4) / 5 % 8 in {0, 2, 4, 5, 7}
  {
    var q, r := n / 5, n % 5;
    assert (8 * n + 4) / 5 == 8 * q + (8 * r + 4) / 5;
  }

  lemma {:induction false} StripRepeat(s: string, n: nat)
    requires AllLetters(s)
    ensures StripPad(s + Repeat('=', n)) == s
  {
    if n == 0 {
      assert s + Repeat('=', 0) == s;
    } else {
      assert (s + Repeat('=', n))[..|s| + n - 1] == s + Repeat('=', n - 1);
      StripRepeat(s, n - 1);
    }
  }

  /** Reading the printed groups as a bit stream again gives the bytes; the zero bits are dropped. */
  lemma GroupsHoldBytes(bytes: seq<Byte>)
    ensures Cut(Stream(Cut(FilledBits(bytes), 5), 5), 8) == bytes
  {
    var bits := Stream(bytes, 8);
    var fill := Zeros((5 - |bits| % 5) % 5);
    EncodedLength(bytes);
    assert Pow2(8) == 256;
    CutStream(bytes, 8, fill);
  }

  lemma RepadFills(s: string)
    ensures Repad(s) == s + Repeat('=', (8 - |s| % 8) % 8) && |Repad(s)| % 8 == 0
  {
  }

  lemma DecodeLetters(s: string, bytes: seq<Byte>)
    requires AllLetters(s) && |s| % 8 in {0, 2, 4, 5, 7} && Cut(Stream(Values(s), 5), 8) == bytes
    ensures DecodePadded(Repad(s)) == Some(bytes)
  {
    var n := (8 - |s| % 8) % 8;
    RepadFills(s);
    StripRepeat(s, n);
    assert StripPad(Repad(s)) == s && |Repad(s)| - |s| == n;
  }

  /** Repeating the padding that was left out restores every byte string, of any length. */
  lemma DecodeRepaddedEncoding(bytes: seq<Byte>)
    ensures DecodePadded(Repad(EncodeUnpadded(bytes))) == Some(bytes)
  {
    EncodedIsLetters(bytes);
    EncodedLength(bytes);
    GroupsHoldBytes(bytes);
    DecodeLetters(EncodeUnpadded(bytes), bytes);
  }

  // ---------------------------------------------------------------- trimming and case

  predicate NoSpaceAtEnds(python: bool, s: string) {
    s != [] ==> !Space(python, s[0]) && !Space(python, s[|s| - 1])
  }

  lemma TrimKeeps(python: bool, s: string)
    requires NoSpaceAtEnds(python, s)
    ensures Trim(python, s) == s
  {
  }

  lemma {:induction false} TrimLeftSpaces(python: bool, w: string, s: string)
    requires forall i :: 0 <= i < |w| ==> Space(python, w[i])
    ensures TrimLeft(python, w + s) == TrimLeft(python, s)
  {
    if w == [] {
      assert w + s == s;
    } else {
      assert (w + s)[1..] == w[1..] + s;
      TrimLeftSpaces(python, w[1..], s);
    }
  }

  lemma {:induction false} TrimRightSpaces(python: bool, s: string, w: string)
    requires forall i :: 0 <= i < |w| ==> Space(python, w[i])
    ensures TrimRight(python, s + w) == TrimRight(python, s)
  {
    if w == [] {
      assert s + w == s;
    } else {
      assert (s + w)[..|s + w| - 1] == s + w[..|w| - 1];
      TrimRightSpaces(python, s, w[..|w| - 1]);
    }
  }

  lemma {:induction false} TrimLeftThrough(python: bool, s: string, w: string)
    requires forall i :: 0 <= i < |w| ==> Space(python, w[i])
    ensures TrimLeft(python, s + w) == (if TrimLeft(python, s) == [] then [] else TrimLeft(python, s) + w)
  {
    if s == [] {
      TrimLeftSpaces(python, w, []);
      assert s + w == w && w + [] == w;
    } else if Space(python, s[0]) {
      assert (s + w)[1..] == s[1..] + w;
      TrimLeftThrough(python, s[1..], w);
    }
  }

  lemma TrimSurrounded(python: bool, before: string, s: string, after: string)
    requires forall i :: 0 <= i < |before| ==> Space(python, before[i])
    requires forall i :: 0 <= i < |after| ==> Space(python, after[i])
    ensures Trim(python, before + s + after) == Trim(python, s)
  {
    assert before + s + after == before + (s + after);
    TrimLeftSpaces(python, before, s + after);
    TrimLeftThrough(python, s, after);
    TrimRightSpaces(python, TrimLeft(python, s), after);
  }

  lemma {:induction false} TrimmedLeft(python: bool, s: string) returns (w: string)
    ensures s == w + TrimLeft(python, s) && forall i :: 0 <= i < |w| ==> Space(python, w[i])
    ensures TrimLeft(python, s) != [] ==> !Space(python, TrimLeft(python, s)[0])
  {
    w := [];
    if s != [] && Space(python, s[0]) {
      var rest := TrimmedLeft(python, s[1..]);
      w := [s[0]] + rest;
    }
  }

  lemma {:induction false} TrimmedRight(python: bool, s: string) returns (w: string)
    ensures s == TrimRight(python, s) + w && forall i :: 0 <= i < |w| ==> Space(python, w[i])
    ensures var t := TrimRight(python, s); t != [] ==> !Space(python, t[|t| - 1])
  {
    w := [];
    if s != [] && Space(python, s[|s| - 1]) {
      var rest := TrimmedRight(python, s[..|s| - 1]);
      w := rest + [s[|s| - 1]];
    }
  }

  /** Trimming takes white space off both ends, and all of it. */
  lemma Trimmed(python: bool, s: string) returns (before: string, after: string)
    ensures s == before + Trim(python, s) + after && NoSpaceAtEnds(python, Trim(python, s))
    ensures forall i :: 0 <= i < |before| ==> Space(python, before[i])
    ensures forall i :: 0 <= i < |after| ==> Space(python, after[i])
  {
    before := TrimmedLeft(python, s);
    after := TrimmedRight(python, TrimLeft(python, s));
  }

  lemma {:induction false} UpperTrimLeft(python: bool, s: string)
    ensures TrimLeft(python, Upper(s)) == Upper(TrimLeft(python, s))
  {
    if s != [] && Space(python, s[0]) {
      assert Upper(s)[1..] == Upper(s[1..]);
      UpperTrimLeft(python, s[1..]);
    }
  }

  lemma {:induction false} UpperTrimRight(python: bool, s: string)
    ensures TrimRight(python, Upper(s)) == Upper(TrimRight(python, s))
  {
    if s != [] && Space(python, s[|s| - 1]) {
      assert Upper(s)[..|s| - 1] == Upper(s[..|s| - 1]);
      UpperTrimRight(python, s[..|s| - 1]);
    }
  }

  lemma UpperTrim(python: bool, s: string)
    ensures Trim(python, Upper(s)) == Upper(Trim(python, s))
  {
    UpperTrimLeft(python, s);
    UpperTrimRight(python, TrimLeft(python, s));
  }

  /** The two cases of one letter. */
  predicate IsCasePair(lower: char, upper: char) {
    'a' <= lower <= 'z' && upper as int == lower as int - 32
  }

  /** The same text but for the case of its letters. */
  predicate SameButCase(s: string, t: string) {
    && |s| == |t|
    && forall i :: 0 <= i < |s| ==> s[i] == t[i] || IsCasePair(s[i], t[i]) || IsCasePair(t[i], s[i])
  }

  lemma SameUpper(s: string, t: string)
    requires SameButCase(s, t)
    ensures Upper(s) == Upper(t)
  {
  }

  /** Letter case does not matter to either parser. */
  lemma DecodingIgnoresCase(s: Ascii, t: Ascii)
    requires SameButCase(s, t)
    ensures PyDecode(s) == PyDecode(t) && GoDecode(s) == GoDecode(t)
  {
    SameUpper(s, t);
    UpperTrim(true, s);
    UpperTrim(true, t);
    UpperTrim(false, s);
    UpperTrim(false, t);
    assert |Upper(Trim(true, s))| == |Trim(true, s)| && |Upper(Trim(true, t))| == |Trim(true, t)|;
  }

  /** Surrounding white space, as each language sees it, does not matter either. */
  lemma DecodingIgnoresSurroundings(before: Ascii, s: Ascii, after: Ascii)
    ensures (forall c :: c in before || c in after ==> PySpace(c)) ==> PyDecode(before + s + after) == PyDecode(s)
    ensures (forall c :: c in before || c in after ==> GoSpace(c)) ==> GoDecode(before + s + after) == GoDecode(s)
  {
    if forall c :: c in before || c in after ==> PySpace(c) {
      TrimSurrounded(true, before, s, after);
      UpperTrim(true, before + s + after);
      UpperTrim(true, s);
    }
    if forall c :: c in before || c in after ==> GoSpace(c) {
      TrimSurrounded(false, before, s, after);
    }
  }

  // ---------------------------------------------------------------- Python and Go

  predicate HasSeparator(s: string) {
    exists i :: 0 <= i < |s| && IsSeparator(s[i])
  }

  predicate HasNewline(s: string) {
    exists i :: 0 <= i < |s| && IsNewline(s[i])
  }

  lemma {:induction false} TrimsAgreeLeft(s: string)
    requires !HasSeparator(s)
    ensures TrimLeft(true, s) == TrimLeft(false, s)
    ensures !HasSeparator(TrimLeft(true, s))
  {
    if s != [] && GoSpace(s[0]) {
      assert forall i :: 0 <= i < |s| - 1 ==> s[1..][i] == s[i + 1];
      TrimsAgreeLeft(s[1..]);
    }
  }

  lemma {:induction false} TrimsAgreeRight(s: string)
    requires !HasSeparator(s)
    ensures TrimRight(true, s) == TrimRight(false, s)
  {
    if s != [] && GoSpace(s[|s| - 1]) {
      TrimsAgreeRight(s[..|s| - 1]);
    }
  }

  lemma TrimsAgree(s: string)
    requires !HasSeparator(s)
    ensures Trim(true, s) == Trim(false, s)
  {
    TrimsAgreeLeft(s);
    TrimsAgreeRight(TrimLeft(true, s));
  }

  lemma {:induction false} DropNothing(s: string)
    requires !HasNewline(s)
    ensures DropNewlines(s) == s
  {
    if s != [] {
      DropNothing(s[..|s| - 1]);
      assert s == s[..|s| - 1] + [s[|s| - 1]];
    }
  }

  lemma {:induction false} DropConcat(s: string, t: string)
    ensures DropNewlines(s + t) == DropNewlines(s) + DropNewlines(t)
  {
    if t == [] {
      assert s + t == s;
    } else {
      assert (s + t)[..|s + t| - 1] == s + t[..|t| - 1];
      DropConcat(s, t[..|t| - 1]);
    }
  }

  lemma {:induction false} UnpaddedIs(s: string, n: nat)
    requires n <= |s| && '=' !in s[..n] && (n < |s| ==> s[n] == '=')
    ensures Unpadded(s) == s[..n]
  {
    if n > 0 {
      assert s[0] == s[..n][0] && s[1..][..n - 1] == s[..n][1..];
      UnpaddedIs(s[1..], n - 1);
    }
  }

  /** Taking the padding off at the end and cutting at the first padding character agree exactly when nothing but
      padding follows. */
  lemma StripIsUnpaddedIff(s: string)
    ensures IsPadding(s, |Unpadded(s)|, |s|) ==> StripPad(s) == Unpadded(s)
    ensures !IsPadding(s, |Unpadded(s)|, |s|) ==> !AllLetters(StripPad(s))
  {
    var n, k := |Unpadded(s)|, |StripPad(s)|;
    assert forall i :: 0 <= i < n ==> s[i] == Unpadded(s)[i] && s[i] != '=';
    if k > n {
      assert StripPad(s)[n] == '=' && s[k - 1] == StripPad(s)[k - 1];
    }
  }

  /** On full blocks without line breaks the two libraries do the same. */
  lemma LibrariesAgree(s: string)
    requires !HasNewline(s) && |s| % 8 == 0
    ensures GoLibrary(s) == DecodePadded(s)
  {
    DropNothing(s);
    StripIsUnpaddedIff(s);
    BlockIsTheLast(|Unpadded(s)|, |s|);
  }

  lemma BlockIsTheLast(n: nat, size: nat)
    requires size % 8 == 0 && n <= size
    ensures n < size <= n + 8 && n % 8 != 0 ==> BlockEnd(n) == size
    ensures size - n in {1, 3, 4, 6} ==> n % 8 in {2, 4, 5, 7}
    ensures n % 8 in {2, 4, 5, 7} && n < size <= n + 8 ==> size - n in {1, 3, 4, 6}
  {
  }

  /** A character outside the alphabet, other than padding, makes the text undecodable. */
  lemma ForeignCharacterRejects(s: string, c: char)
    requires c in s && c != '=' && !IsLetter(c)
    ensures DecodePadded(s) == None
  {
    var i :| 0 <= i < |s| && s[i] == c;
    assert i < |StripPad(s)| && !IsLetter(StripPad(s)[i]);
  }

  lemma NewlineRejectedByPython(s: Ascii)
    requires HasNewline(Trim(true, s))
    ensures PyDecode(s) == Err(BadBase32)
  {
    UpperTrim(true, s);
    var t := Trim(true, s);
    var i :| 0 <= i < |t| && IsNewline(t[i]);
    assert Upper(t)[i] == t[i] && Repad(Upper(t))[i] == t[i];
    ForeignCharacterRejects(Repad(Upper(t)), t[i]);
  }

  lemma CleanSecretsAgree(s: Ascii)
    requires !HasSeparator(s) && !HasNewline(Trim(false, s))
    ensures Trim(true, s) == Trim(false, s)
    ensures Trim(false, s) != [] ==>
              PyDecode(s) == if GoDecode(s).None? then Err(BadBase32) else Ok(GoDecode(s).value)
    ensures Trim(false, s) == [] ==> PyDecode(s) == Err(EmptySecret) && GoDecode(s) == Some([])
  {
    TrimsAgree(s);
    UpperTrim(true, s);
    var t := Repad(Upper(Trim(false, s)));
    RepadFills(Upper(Trim(false, s)));
    assert !HasNewline(t);
    LibrariesAgree(t);
  }

  // ---------------------------------------------------------------- both parsers undo the printer

  /** Both parsers return the bytes of every printed secret; only Python refuses the empty one. */
  lemma RoundTrip(bytes: seq<Byte>)
    ensures forall i :: 0 <= i < |EncodeUnpadded(bytes)| ==> EncodeUnpadded(bytes)[i] as int < 128
    ensures GoDecode(EncodeUnpadded(bytes)) == Some(bytes)
    ensures PyDecode(EncodeUnpadded(bytes)) == if bytes == [] then Err(EmptySecret) else Ok(bytes)
  {
    var s := EncodeUnpadded(bytes);
    EncodedIsLetters(bytes);
    LettersAreClean(s);
    DecodeRepaddedEncoding(bytes);
    assert |s| == (8 * |bytes| + 4) / 5 by {
      EncodedLength(bytes);
    }
    CleanSecretsAgree(s);
  }

  lemma LettersAreClean(s: string)
    requires AllLetters(s)
    ensures forall i :: 0 <= i < |s| ==> s[i] as int < 128
    ensures Trim(false, s) == s && Upper(s) == s && DropNewlines(Repad(s)) == Repad(s)
    ensures !HasSeparator(s) && !HasNewline(s)
  {
    TrimKeeps(false, s);
    DropNothing(Repad(s));
  }

  /** A generated secret has 32 characters, needs no padding, and gives its 20 bytes back in both languages. */
  lemma GeneratedSecretDecodes(bytes: seq<Byte>)
    requires |bytes| == 20
    ensures |EncodeUnpadded(bytes)| == 32 && Repad(EncodeUnpadded(bytes)) == EncodeUnpadded(bytes)
    ensures forall i :: 0 <= i < |EncodeUnpadded(bytes)| ==> EncodeUnpadded(bytes)[i] as int < 128
    ensures GoDecode(EncodeUnpadded(bytes)) == Some(bytes) && PyDecode(EncodeUnpadded(bytes)) == Ok(bytes)
  {
    EncodedLength(bytes);
    RoundTrip(bytes);
  }

  /** A printed key in lower case, or in mixed case, is the same key to both. */
  lemma CaselessKeysDecode(bytes: seq<Byte>, s: Ascii)
    requires bytes != [] && SameButCase(s, EncodeUnpadded(bytes))
    ensures GoDecode(s) == Some(bytes) && PyDecode(s) == Ok(bytes)
  {
    RoundTrip(bytes);
    DecodingIgnoresCase(s, EncodeUnpadded(bytes));
  }

  lemma {:induction false} OnlySpace(python: bool, s: string)
    requires forall i :: 0 <= i < |s| ==> Space(python, s[i])
    ensures Trim(python, s) == []
  {
    if s != [] {
      OnlySpace(python, s[1..]);
    }
  }

  /** Python refuses blank secrets as such. */
  lemma BlankIsRefused(s: Ascii)
    requires forall i :: 0 <= i < |s| ==> PySpace(s[i])
    ensures PyDecode(s) == Err(EmptySecret)
  {
    OnlySpace(true, s);
  }

  /** Go reads the empty key from them. */
  lemma BlankIsEmptyKey(s: Ascii)
    requires forall i :: 0 <= i < |s| ==> GoSpace(s[i])
    ensures GoDecode(s) == Some([])
  {
    OnlySpace(false, s);
    assert Repad(Upper([])) == [];
  }

  lemma LowerPrinting(bytes: seq<Byte>) returns (s: string)
    ensures IsAscii(s) && SameButCase(s, EncodeUnpadded(bytes))
    ensures forall i :: 0 <= i < |s| ==> !('A' <= s[i] <= 'Z')
  {
    var e := EncodeUnpadded(bytes);
    EncodedIsLetters(bytes);
    s := seq(|e|, i requires 0 <= i < |e| => if 'A' <= e[i] <= 'Z' then (e[i] as int + 32) as char else e[i]);
  }
}

/** What the pages of the audit log contain: when List is right, and what a reader of several pages sees. */
module Paging {
  import opened AuditLog
  import opened Words

  function Least(a: int, b: int): int {
    if a < b then a else b
  }

  /** At most size events, newest first, after skipping the given number of newest ones. */
  function Skipping(log: seq<Event>, skip: nat, size: nat): seq<Event> {
    Reverse(log)[Least(skip, |log|)..Least(skip + size, |log|)]
  }

  /** The page that the caller asks for, on unbounded integers: page 1 starts at the newest event. */
  function PageOf(log: seq<Event>, page: nat, size: nat): seq<Event>
    requires page >= 1
  {
    Skipping(log, (page - 1) * size, size)
  }

  lemma ListedFromIsRightIff(log: seq<Event>, offset: nat, size: Int64)
    requires size >= 1 && |log| <= MAX_INT64
    ensures ListedFrom(log, offset, size) == Page(Skipping(log, offset, size), |log|)
            <==>
            |log| == 0 || Wrap64(offset) >= |log| || offset + size <= MAX_INT64
  {
    var start, total := Wrap64(offset), |log|;
    assert offset <= MAX_INT64 ==> start == offset;
    if total != 0 && 0 <= start < total && offset > MAX_INT64 {
      assert Skipping(log, offset, size) == [];
      if start + size <= MAX_INT64 {
        assert |Reverse(log)[start..Least(start + size, total)]| > 0;
      }
    }
  }

  /** List answers with the requested page exactly when the log is empty, the page's end fits in 64 bits,
      or its wrapped start happens to lie past the log. */
  lemma ListIsRightIff(log: seq<Event>, page: Int64, size: Int64)
    requires page >= 1 && size >= 1 && |log| <= MAX_INT64
    ensures Listed(log, page, size) == Page(PageOf(log, page, size), |log|)
            <==>
            |log| == 0 || Wrap64((page - 1) * size) >= |log| || (page - 1) * size + size <= MAX_INT64
  {
    assert (page - 1) * size >= 0;
    assert Wrap64(page - 1) == page - 1;
    ListedFromIsRightIff(log, (page - 1) * size, size);
  }

  /** A page size that the HTTP handler lets through, and a page number that makes List panic or repeat page 1. */
  lemma HugePagesGoWrong(log: seq<Event>)
    requires 0 < |log| <= MAX_INT64
    ensures Listed(log, 0x100_0000_0000_0001, 128) == Panic
    ensures Listed(log, 0x200_0000_0000_0001, 128) == Listed(log, 1, 128) != Page([], |log|)
  {
    assert Wrap64(0) == 0 && Wrap64(128) == 128;
  }

  // ---------------------------------------------------------------- a log that stands still

  function Pages(log: seq<Event>, size: nat, count: nat): seq<Event> {
    if count == 0 then [] else Pages(log, size, count - 1) + PageOf(log, count, size)
  }

  lemma {:induction false} PagesAreAPrefix(log: seq<Event>, size: nat, count: nat)
    ensures Pages(log, size, count) == Reverse(log)[..Least(count * size, |log|)]
  {
    if count > 0 {
      PagesAreAPrefix(log, size, count - 1);
      assert (count - 1) * size + size == count * size;
    }
  }

  lemma RoundedUp(total: nat, size: nat)
    requires size >= 1
    ensures (total + size - 1) / size * size >= total
  {
    var rest := (total + size - 1) % size;
    assert total + size - 1 == (total + size - 1) / size * size + rest;
  }

  /** Reading on until the log is used up yields every event once, newest first. */
  lemma PagesPartitionTheLog(log: seq<Event>, size: nat)
    requires size >= 1
    ensures Pages(log, size, (|log| + size - 1) / size) == Reverse(log)
  {
    PagesAreAPrefix(log, size, (|log| + size - 1) / size);
    RoundedUp(|log|, size);
  }

  // ---------------------------------------------------------------- a log that grows while it is read

  /** logs[i] is the log when page i + 1 is fetched: any number of events may be appended in between. */
  ghost predicate Growing(logs: seq<seq<Event>>) {
    forall i, j :: 0 <= i <= j < |logs| ==> logs[i] <= logs[j]
  }

  /** What the reader has received after n fetches: page 1 of the first log, page 2 of the second, and so on. */
  function Received(logs: seq<seq<Event>>, n: nat, size: nat): seq<Event>
    requires n <= |logs|
  {
    if n == 0 then [] else Received(logs, n - 1, size) + PageOf(logs[n - 1], n, size)
  }

  function Clamp(x: int, hi: nat): nat {
    if x < 0 then 0 else if x > hi then hi else x
  }

  /** How often an event occurs at the positions lo to hi of a sequence. */
  function Count(s: seq<Event>, lo: nat, hi: nat, e: Event): nat
    requires hi <= |s|
  {
    if hi <= lo then 0 else Count(s, lo, hi - 1, e) + if s[hi - 1] == e then 1 else 0
  }

  function Occurrences(s: seq<Event>, e: Event): nat {
    Count(s, 0, |s|, e)
  }

  lemma {:induction false} CountSplit(s: seq<Event>, lo: nat, mid: nat, hi: nat, e: Event)
    requires lo <= mid <= hi <= |s|
    ensures Count(s, lo, hi, e) == Count(s, lo, mid, e) + Count(s, mid, hi, e)
  {
    if mid < hi {
      CountSplit(s, lo, mid, hi - 1, e);
    }
  }

  /** Counting depends only on what stands at the positions, wherever they are. */
  lemma {:induction false} CountShifted(s: seq<Event>, t: seq<Event>, lo: nat, hi: nat, shift: nat, e: Event)
    requires lo <= hi <= |s| && hi + shift <= |t|
    requires forall i :: lo <= i < hi ==> s[i] == t[i + shift]
    ensures Count(s, lo, hi, e) == Count(t, lo + shift, hi + shift, e)
  {
    if lo < hi {
      CountShifted(s, t, lo, hi - 1, shift, e);
    }
  }

  lemma {:induction false} CountSame(s: seq<Event>, t: seq<Event>, lo: nat, hi: nat, e: Event)
    requires hi <= |s| && hi <= |t| && forall i :: lo <= i < hi ==> s[i] == t[i]
    ensures Count(s, lo, hi, e) == Count(t, lo, hi, e)
  {
    if lo < hi {
      CountSame(s, t, lo, hi - 1, e);
    }
  }

  lemma {:induction false} CountJoined(s: seq<Event>, t: seq<Event>, k: nat, e: Event)
    requires k <= |t|
    ensures Count(s + t, 0, |s| + k, e) == Occurrences(s, e) + Count(t, 0, k, e)
  {
    if k == 0 {
      CountSame(s, s + t, 0, |s|, e);
    } else {
      CountJoined(s, t, k - 1, e);
      assert (s + t)[|s| + k - 1] == t[k - 1];
    }
  }

  /** Newest first, the page from a to b shows the positions |s| - b to |s| - a. */
  lemma {:induction false} CountReversed(s: seq<Event>, a: nat, b: nat, e: Event)
    requires a <= b <= |s|
    ensures Count(Reverse(s), a, b, e) == Count(s, |s| - b, |s| - a, e)
  {
    if a < b {
      CountReversed(s, a, b - 1, e);
      CountSplit(s, |s| - b, |s| - b + 1, |s| - a, e);
      assert Count(s, |s| - b, |s| - b, e) == 0;
    }
  }

  lemma PageIsASlice(log: seq<Event>, skip: nat, size: nat, e: Event)
    ensures Occurrences(Skipping(log, skip, size), e)
            == Count(log, Clamp(|log| - skip - size, |log|), Clamp(|log| - skip, |log|), e)
  {
    var a, b := Least(skip, |log|), Least(skip + size, |log|);
    CountShifted(Skipping(log, skip, size), Reverse(log), 0, b - a, a, e);
    CountReversed(log, a, b, e);
  }

  /** What a log holds from lo on is in what it holds from had on, and in the slice from lo of a longer log. */
  lemma SliceFillsGap(log0: seq<Event>, last: seq<Event>, lo: nat, had: nat, hi: nat, e: Event)
    requires log0 <= last && lo <= had <= hi <= |last| && had <= |log0|
    ensures Count(log0, lo, |log0|, e) <= Count(log0, had, |log0|, e) + Count(last, lo, hi, e)
  {
    CountSplit(log0, lo, had, |log0|, e);
    CountSplit(last, lo, had, hi, e);
    CountSame(log0, last, lo, had, e);
  }

  /** One more page: what was received reaches down to had, the new page reaches from there down to from. */
  lemma OnePageMore(log0: seq<Event>, before: seq<Event>, last: seq<Event>, skip: nat, size: nat, got: nat, e: Event)
    requires log0 <= before <= last
    requires Count(log0, Clamp(|before| - skip, |log0|), |log0|, e) <= got
    ensures Count(log0, Clamp(|last| - skip - size, |log0|), |log0|, e)
            <= got + Occurrences(Skipping(last, skip, size), e)
  {
    PageIsASlice(last, skip, size, e);
    var had, from := Clamp(|before| - skip, |log0|), Clamp(|last| - skip - size, |log0|);
    if from < had {
      SliceFillsGap(log0, last, from, had, Clamp(|last| - skip, |last|), e);
    } else {
      CountSplit(log0, had, from, |log0|, e);
    }
  }

  /** After n fetches the reader has every event of the first log that lay before the end of page n. */
  ghost predicate HasReached(logs: seq<seq<Event>>, n: nat, size: nat, e: Event)
    requires 1 <= n <= |logs|
  {
    Count(logs[0], Clamp(|logs[n - 1]| - (n - 1) * size - size, |logs[0]|), |logs[0]|, e)
    <= Occurrences(Received(logs, n, size), e)
  }

  lemma NextPage(logs: seq<seq<Event>>, n: nat, size: nat, skip: nat, e: Event)
    requires Growing(logs) && 2 <= n <= |logs| && HasReached(logs, n - 1, size, e)
    requires skip == (n - 1) * size == (n - 2) * size + size
    ensures HasReached(logs, n, size, e)
  {
    var before, page := Received(logs, n - 1, size), Skipping(logs[n - 1], skip, size);
    CountJoined(before, page, |page|, e);
    OnePageMore(logs[0], logs[n - 2], logs[n - 1], skip, size, Occurrences(before, e), e);
  }

  lemma FirstPage(logs: seq<seq<Event>>, size: nat, e: Event)
    requires logs != []
    ensures HasReached(logs, 1, size, e)
  {
    var log0: seq<Event> := logs[0];
    assert Received(logs, 1, size) == Skipping(log0, 0, size);
    OnePageMore(log0, log0, log0, 0, size, 0, e);
  }

  lemma {:induction false} ReceivedSoFar(logs: seq<seq<Event>>, n: nat, size: nat, e: Event)
    requires Growing(logs) && 1 <= n <= |logs|
    ensures HasReached(logs, n, size, e)
  {
    if n == 1 {
      FirstPage(logs, size, e);
    } else {
      ReceivedSoFar(logs, n - 1, size, e);
      NextPage(logs, n, size, (n - 1) * size, e);
    }
  }

  lemma IdealReaderMissesNothing(logs: seq<seq<Event>>, size: nat, e: Event)
    requires size >= 1 && Growing(logs) && logs != []
    requires PageOf(logs[|logs| - 1], |logs|, size) == []
    ensures Occurrences(logs[0], e) <= Occurrences(Received(logs, |logs|, size), e)
  {
    assert (|logs| - 1) * size >= |logs[|logs| - 1]|;
    ReceivedSoFar(logs, |logs|, size, e);
  }

  // ---------------------------------------------------------------- the reader of List

  /** What List answers to a reader: answers[i] is page i + 1 of logs[i], on 64-bit integers. */
  ghost predicate Answers(answers: seq<Listing>, logs: seq<seq<Event>>, size: Int64) {
    && |answers| == |logs| <= MAX_INT64
    && forall i :: 0 <= i < |logs| ==> |logs[i]| <= MAX_INT64 && answers[i] == Listed(logs[i], i + 1, size)
  }

  /** The reader meets no panic and goes on to its first empty page. */
  predicate ReadToTheEnd(answers: seq<Listing>) {
    && answers != []
    && (forall i :: 0 <= i < |answers| ==> answers[i].Page?)
    && (forall i :: 0 <= i < |answers| ==> (answers[i].events == [] <==> i == |answers| - 1))
  }

  function EventsOf(answers: seq<Listing>): seq<Event> {
    if answers == [] then []
    else
      var last := answers[|answers| - 1];
      EventsOf(answers[..|answers| - 1]) + if last.Page? then last.events else []
  }

  lemma SumsWrapBelowZero(x: int)
    ensures 0 <= x <= MAX_INT64 ==> Wrap64(x) == x
    ensures MAX_INT64 < x <= 2 * MAX_INT64 ==> Wrap64(x) < 0
  {
  }

  /** As long as the start of a page does not wrap, List answers with the page or panics, and the start of the page
      after a page that is not empty does not wrap either. */
  lemma PageOrPanic(log: seq<Event>, offset: nat, size: Int64)
    requires size >= 1 && |log| <= MAX_INT64 && offset <= MAX_INT64 && ListedFrom(log, offset, size).Page?
    ensures ListedFrom(log, offset, size) == Page(Skipping(log, offset, size), |log|)
    ensures ListedFrom(log, offset, size).events != [] ==> offset + size <= MAX_INT64
  {
    SumsWrapBelowZero(offset);
    SumsWrapBelowZero(offset + size);
    if offset >= |log| {
      assert Skipping(log, offset, size) == [];
    }
  }

  lemma AnswerAt(log: seq<Event>, size: Int64, page: Int64, offset: nat)
    requires page >= 1 && offset == (page - 1) * size
    ensures Listed(log, page, size) == ListedFrom(log, offset, size)
    ensures size >= 0 ==> PageOf(log, page, size) == Skipping(log, offset, size)
  {
    SumsWrapBelowZero(page - 1);
  }

  lemma Before(i: nat, size: nat, offset: nat)
    requires i > 0 && offset == i * size
    ensures offset - size == (i - 1) * size && offset - size >= 0
  {
    assert i * size == (i - 1) * size + size;
  }

  /** So the answers are the requested pages, whatever the page size. */
  lemma {:induction false} AnswersAreRight(answers: seq<Listing>, logs: seq<seq<Event>>, size: Int64,
                                           page: nat, offset: nat)
    requires size >= 1 && Answers(answers, logs, size) && ReadToTheEnd(answers)
    requires 1 <= page <= |logs| && offset == (page - 1) * size
    ensures answers[page - 1].events == PageOf(logs[page - 1], page, size)
    ensures page < |logs| ==> offset + size <= MAX_INT64
  {
    if page > 1 {
      Before(page - 1, size, offset);
      AnswersAreRight(answers, logs, size, page - 1, offset - size);
    }
    var log, answer := logs[page - 1], answers[page - 1];
    assert answer == Listed(log, page, size);
    AnswerAt(log, size, page, offset);
    PageOrPanic(log, offset, size);
  }

  ghost predicate RightPages(answers: seq<Listing>, logs: seq<seq<Event>>, size: nat) {
    && |answers| == |logs|
    && forall i :: 0 <= i < |logs| ==> answers[i].Page? && answers[i].events == PageOf(logs[i], i + 1, size)
  }

  lemma AnswersAreRightPages(answers: seq<Listing>, logs: seq<seq<Event>>, size: Int64)
    requires size >= 1 && Answers(answers, logs, size) && ReadToTheEnd(answers)
    ensures RightPages(answers, logs, size)
  {
    forall i | 0 <= i < |logs|
      ensures answers[i].events == PageOf(logs[i], i + 1, size)
    {
      AnswersAreRight(answers, logs, size, i + 1, i * size);
    }
  }

  lemma {:induction false} ReadIsReceived(answers: seq<Listing>, logs: seq<seq<Event>>, size: nat, n: nat)
    requires RightPages(answers, logs, size) && n <= |logs|
    ensures EventsOf(answers[..n]) == Received(logs, n, size)
  {
    if n > 0 {
      ReadIsReceived(answers, logs, size, n - 1);
      assert answers[..n][..n - 1] == answers[..n - 1];
    }
  }

  lemma RightPagesMissNothing(answers: seq<Listing>, logs: seq<seq<Event>>, size: nat, e: Event)
    requires size >= 1 && Growing(logs) && logs != [] && RightPages(answers, logs, size)
    requires answers[|answers| - 1].events == []
    ensures Occurrences(logs[0], e) <= Occurrences(EventsOf(answers), e)
  {
    assert answers[..|logs|] == answers;
    ReadIsReceived(answers, logs, size, |logs|);
    IdealReaderMissesNothing(logs, size, e);
  }

  /** No omissions: a reader of List that goes on until a page is empty has received every event that the log held
      when it started, as often as it occurs there, whatever was appended meanwhile, and for every page size. */
  lemma NoEventIsMissed(answers: seq<Listing>, logs: seq<seq<Event>>, size: Int64, e: Event)
    requires size >= 1 && Growing(logs) && Answers(answers, logs, size) && ReadToTheEnd(answers)
    ensures Occurrences(logs[0], e) <= Occurrences(EventsOf(answers), e)
  {
    AnswersAreRightPages(answers, logs, size);
    RightPagesMissNothing(answers, logs, size, e);
  }

  lemma NoPanicAt(log: seq<Event>, offset: nat, size: Int64)
    requires size >= 1 && offset <= MAX_INT64 && |log| + size <= MAX_INT64
    ensures ListedFrom(log, offset, size).Page?
  {
    SumsWrapBelowZero(offset);
    SumsWrapBelowZero(offset + size);
  }

  /** The first empty page of the answers, if any, is the last one. */
  predicate StopsWhenEmpty(answers: seq<Listing>) {
    forall i :: 0 <= i < |answers| && answers[i].Page? && answers[i].events == [] ==> i == |answers| - 1
  }

  ghost predicate LeaveRoom(logs: seq<seq<Event>>, size: Int64) {
    forall i :: 0 <= i < |logs| ==> |logs[i]| + size <= MAX_INT64
  }

  lemma {:induction false} NoPanicUpTo(answers: seq<Listing>, logs: seq<seq<Event>>, size: Int64,
                                       page: nat, offset: nat)
    requires size >= 1 && Answers(answers, logs, size) && LeaveRoom(logs, size) && StopsWhenEmpty(answers)
    requires 1 <= page <= |logs| && offset == (page - 1) * size
    ensures answers[page - 1].Page? && (page < |logs| ==> offset + size <= MAX_INT64)
  {
    if page > 1 {
      Before(page - 1, size, offset);
      NoPanicUpTo(answers, logs, size, page - 1, offset - size);
    }
    var log, answer := logs[page - 1], answers[page - 1];
    assert answer == Listed(log, page, size);
    AnswerAt(log, size, page, offset);
    NoPanicAt(log, offset, size);
    PageOrPanic(log, offset, size);
  }

  lemma NoPanic(answers: seq<Listing>, logs: seq<seq<Event>>, size: Int64, i: nat)
    requires size >= 1 && Answers(answers, logs, size) && LeaveRoom(logs, size) && StopsWhenEmpty(answers) && i < |logs|
    ensures answers[i].Page?
  {
    NoPanicUpTo(answers, logs, size, i + 1, i * size);
  }

  lemma PagesToTheEnd(answers: seq<Listing>)
    requires StopsWhenEmpty(answers) && answers != [] && forall i :: 0 <= i < |answers| ==> answers[i].Page?
    requires answers[|answers| - 1].events == []
    ensures ReadToTheEnd(answers)
  {
  }

  /** A reader that stops at its first empty page meets no panic while each log leaves room for one more page in 64
      bits, so it misses nothing. */
  lemma ReaderMeetsNoPanic(answers: seq<Listing>, logs: seq<seq<Event>>, size: Int64, e: Event)
    requires size >= 1 && Growing(logs) && Answers(answers, logs, size) && LeaveRoom(logs, size)
    requires StopsWhenEmpty(answers) && answers != []
    requires answers[|answers| - 1].Page? ==> answers[|answers| - 1].events == []
    ensures ReadToTheEnd(answers)
    ensures Occurrences(logs[0], e) <= Occurrences(EventsOf(answers), e)
  {
    forall i | 0 <= i < |answers|
      ensures answers[i].Page?
    {
      NoPanic(answers, logs, size, i);
    }
    PagesToTheEnd(answers);
    NoEventIsMissed(answers, logs, size, e);
  }

  lemma FirstOfSizeOne(log: seq<Event>, page: Int64)
    requires 1 <= page <= |log| + 1 <= 3
    ensures Listed(log, page, 1) == Page(if page <= |log| then [log[|log| - page]] else [], |log|)
  {
    AnswerAt(log, 1, page, page - 1);
    SumsWrapBelowZero(page - 1);
    SumsWrapBelowZero(page);
  }

  lemma EventsOfThree(x: Listing, y: Listing, z: Listing)
    requires x.Page? && y.Page? && z.Page?
    ensures EventsOf([x, y, z]) == x.events + y.events + z.events
  {
    assert [x, y, z][..2] == [x, y] && [x, y][..1] == [x] && [x][..0] == [];
    assert EventsOf([x]) == x.events;
  }

  /** Duplicates do occur: one append between two fetches shows the reader the same event twice. */
  lemma DuplicatesHappen(a: Event, b: Event)
    ensures var logs, answers := [[a], [a, b], [a, b]], [Page([a], 1), Page([a], 2), Page([], 2)];
            Growing(logs) && Answers(answers, logs, 1) && ReadToTheEnd(answers) && EventsOf(answers) == [a, a]
  {
    FirstOfSizeOne([a], 1);
    FirstOfSizeOne([a, b], 2);
    FirstOfSizeOne([a, b], 3);
    EventsOfThree(Page([a], 1), Page([a], 2), Page([], 2));
  }
}

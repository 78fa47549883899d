/** The machine-maintained "Current state" block of a brief, and when rewriting it is safe. */
module BriefState {
  import opened Text

  const START := "<!-- flow:state:start -->"
  const END := "<!-- flow:state:end -->"
  const HEADER := "**Current state** \U{b7} updated "

  /** renderBriefStateBlock. */
  function Block(body: string, date: string): string {
    START + Inner(body, date) + END
  }

  /** What lies between the markers. */
  function Inner(body: string, date: string): string {
    "\n" + HEADER + date + "\n" + CutRight(body, "\n") + "\n"
  }

  predicate EndsWith(s: string, tail: string) {
    |tail| <= |s| && s[|s| - |tail|..] == tail
  }

  /** The blank line put before an appended block. */
  function Separator(cur: string): string {
    if cur == "" || EndsWith(cur, "\n\n") then "" else if EndsWith(cur, "\n") then "\n" else "\n\n"
  }

  /** The text writeBriefCurrentState leaves; None is a missing file. */
  function Rewrite(file: Option<string>, body: string, date: string): string {
    match file
    case None => Block(body, date) + "\n"
    case Some(cur) =>
      var start, end := IndexOf(cur, START), IndexOf(cur, END);
      if start >= 0 && end > start then cur[..start] + Block(body, date) + cur[end + |END|..]
      else cur + Separator(cur) + Block(body, date) + "\n"
  }

  predicate MarkerFree(s: string) {
    !Contains(s, START) && !Contains(s, END)
  }

  /** No marker at all, or the first start before the first end. */
  predicate WellMarked(s: string) {
    MarkerFree(s) || 0 <= IndexOf(s, START) < IndexOf(s, END)
  }

  // ----- occurrences never straddle a join -----

  /** Begins with '<', and has neither another '<' nor a newline. */
  predicate MarkerLike(m: string) {
    |m| > 0 && m[0] == '<' && '\n' !in m && forall k :: 0 < k < |m| ==> m[k] != '<'
  }

  lemma MarkersAreMarkerLike()
    ensures MarkerLike(START) && MarkerLike(END) && |START| == 25 && |END| == 23
  {
  }

  /** A safe place to glue: b starts with something no marker has inside, or a has nothing a
      marker could start with. */
  predicate CleanJoin(a: string, b: string) {
    b == "" || b[0] == '<' || b[0] == '\n' || '<' !in a
  }

  lemma JoinOccurrence(a: string, b: string, m: string, i: int)
    requires MarkerLike(m) && CleanJoin(a, b)
    ensures StartsAt(a + b, m, i) <==> StartsAt(a, m, i) || (i >= |a| && StartsAt(b, m, i - |a|))
  {
    if i >= |a| && i + |m| <= |a + b| {
      assert (a + b)[i..i + |m|] == b[i - |a|..i - |a| + |m|];
    } else if 0 <= i && i + |m| <= |a| {
      assert (a + b)[i..i + |m|] == a[i..i + |m|];
    } else if StartsAt(a + b, m, i) {
      Straddle(a, b, m, i);
    }
  }

  lemma Straddle(a: string, b: string, m: string, i: int)
    requires StartsAt(a + b, m, i) && i < |a| < i + |m|
    ensures b != "" && a[i] == m[0] && b[0] == m[|a| - i]
  {
    StartsAtChars(a + b, m, i);
    assert (a + b)[i + 0] == m[0] && (a + b)[i + (|a| - i)] == m[|a| - i];
  }

  /** The first occurrence in a clean join. */
  lemma JoinIndex(a: string, b: string, m: string)
    requires MarkerLike(m) && CleanJoin(a, b)
    ensures IndexOf(a + b, m) ==
      if IndexOf(a, m) >= 0 then IndexOf(a, m) else if IndexOf(b, m) >= 0 then |a| + IndexOf(b, m) else -1
  {
    forall i ensures StartsAt(a + b, m, i) <==> StartsAt(a, m, i) || (i >= |a| && StartsAt(b, m, i - |a|)) {
      JoinOccurrence(a, b, m, i);
    }
    FirstOccurrence(a, m);
    FirstOccurrence(b, m);
    FirstOccurrence(a + b, m);
    var inA, inB, all := IndexOf(a, m), IndexOf(b, m), IndexOf(a + b, m);
    if inA >= 0 {
      assert StartsAt(a + b, m, inA);
      assert StartsAt(a, m, all) || all >= |a|;
    } else if inB >= 0 {
      assert StartsAt(a + b, m, |a| + inB);
    }
  }

  lemma FirstOccurrence(s: string, m: string)
    ensures IndexOf(s, m) >= 0 ==> StartsAt(s, m, IndexOf(s, m))
    ensures forall k :: StartsAt(s, m, k) ==> 0 <= IndexOf(s, m) <= k
  {
  }

  lemma MarkersApart()
    ensures IndexOf(START, START) == 0 && IndexOf(END, END) == 0
    ensures !Contains(START, END) && !Contains(END, START)
  {
    assert StartsAt(START, START, 0) && StartsAt(END, END, 0);
    assert START[16] == 's' && END[16] == 'e';
    forall i ensures !StartsAt(START, END, i) {
      if StartsAt(START, END, i) { StartsAtChars(START, END, i); }
    }
  }

  lemma NothingIn(s: string, m: string)
    requires MarkerLike(m) && '<' !in s
    ensures IndexOf(s, m) == -1
  {
    forall i ensures !StartsAt(s, m, i) {
      if StartsAt(s, m, i) { StartsAtChars(s, m, i); }
    }
  }

  lemma PrefixFree(s: string, n: nat, m: string)
    requires n <= |s| && m != "" && (IndexOf(s, m) < 0 || n <= IndexOf(s, m))
    ensures IndexOf(s[..n], m) == -1
  {
    forall i | StartsAt(s[..n], m, i) ensures StartsAt(s, m, i) && i < n {
      assert s[..n][i..i + |m|] == s[i..i + |m|];
    }
  }

  lemma InnerFree(body: string, date: string, m: string)
    requires MarkerLike(m) && IndexOf(body, m) == -1 && IndexOf(date, m) == -1
    ensures IndexOf(Inner(body, date), m) == -1
  {
    var text := CutRight(body, "\n");
    CutRightIs(body, "\n");
    PrefixFree(body, |text|, m);
    NothingIn("\n" + HEADER, m);
    NothingIn("\n", m);
    JoinIndex("\n" + HEADER, date, m);
    JoinIndex("\n" + HEADER + date, "\n", m);
    JoinIndex("\n", text, m);
    JoinIndex("\n" + text, "\n", m);
    JoinIndex("\n" + HEADER + date, "\n" + text + "\n", m);
    assert Inner(body, date) == ("\n" + HEADER + date) + ("\n" + text + "\n");
  }

  /** In any text made of a marker-free prefix, a marked stretch and anything else, the first
      markers are those of the stretch. */
  lemma StretchFound(prefix: string, s: string, inner: string, e: string, suffix: string)
    requires MarkerLike(s) && MarkerLike(e) && IndexOf(s, e) == -1
    requires IndexOf(prefix, s) == -1 && IndexOf(prefix, e) == -1 && IndexOf(inner, e) == -1
    requires inner != "" && inner[0] == '\n'
    ensures IndexOf(prefix + (s + (inner + (e + suffix))), s) == |prefix|
    ensures IndexOf(prefix + (s + (inner + (e + suffix))), e) == |prefix| + |s| + |inner|
  {
    var tail := e + suffix;
    assert StartsAt(tail, e, 0);
    FirstOccurrence(tail, e);
    JoinIndex(inner, tail, e);
    var rest := inner + tail;
    JoinIndex(s, rest, e);
    var marked := s + rest;
    assert StartsAt(marked, s, 0);
    FirstOccurrence(marked, s);
    JoinIndex(prefix, marked, e);
    JoinIndex(prefix, marked, s);
  }

  lemma Regroup(prefix: string, s: string, inner: string, e: string, suffix: string)
    ensures prefix + (s + inner + e) + suffix == prefix + (s + (inner + (e + suffix)))
  {
  }

  lemma BlockFound(prefix: string, body: string, date: string, suffix: string)
    requires MarkerFree(prefix) && MarkerFree(body) && MarkerFree(date)
    ensures IndexOf(prefix + Block(body, date) + suffix, START) == |prefix|
    ensures IndexOf(prefix + Block(body, date) + suffix, END) == |prefix| + |START| + |Inner(body, date)|
  {
    MarkersAreMarkerLike();
    MarkersApart();
    InnerFree(body, date, END);
    Regroup(prefix, START, Inner(body, date), END, suffix);
    StretchFound(prefix, START, Inner(body, date), END, suffix);
  }

  /** What a rewrite keeps in front of the block and behind it. */
  function Around(file: Option<string>): (string, string) {
    match file
    case None => ("", "\n")
    case Some(cur) =>
      var start, end := IndexOf(cur, START), IndexOf(cur, END);
      if start >= 0 && end > start then (cur[..start], cur[end + |END|..])
      else (cur + Separator(cur), "\n")
  }

  lemma RewriteShape(file: Option<string>, body: string, date: string)
    ensures Rewrite(file, body, date) == Around(file).0 + Block(body, date) + Around(file).1
  {
    var block := Block(body, date);
    if file.None? {
      NoPrefix(block, "\n");
    } else {
      var cur := file.value;
      var start, end := IndexOf(cur, START), IndexOf(cur, END);
      if start >= 0 && end > start {
        assert Around(file) == (cur[..start], cur[end + |END|..]);
        assert Rewrite(file, body, date) == cur[..start] + block + cur[end + |END|..];
      } else {
        assert Around(file) == (cur + Separator(cur), "\n");
        assert Rewrite(file, body, date) == cur + Separator(cur) + block + "\n";
      }
    }
  }

  lemma NoPrefix(block: string, tail: string)
    ensures "" + block + tail == block + tail
  {
  }

  lemma Regroup2(a: string, b: string, c: string)
    ensures a + b + c == a + (b + c)
  {
  }

  lemma AroundMarkerFree(file: Option<string>)
    requires file.Some? ==> WellMarked(file.value)
    ensures MarkerFree(Around(file).0)
  {
    MarkersAreMarkerLike();
    if file.None? {
      NothingIn("", START);
      NothingIn("", END);
    } else {
      var cur := file.value;
      var start, end := IndexOf(cur, START), IndexOf(cur, END);
      if start >= 0 && end > start {
        PrefixFree(cur, start, START);
        PrefixFree(cur, start, END);
      } else {
        SeparatorHarmless(cur, START);
        SeparatorHarmless(cur, END);
      }
    }
  }

  lemma SeparatorHarmless(cur: string, m: string)
    requires MarkerLike(m)
    ensures IndexOf(cur + Separator(cur), m) == IndexOf(cur, m)
  {
    NothingIn(Separator(cur), m);
    JoinIndex(cur, Separator(cur), m);
  }

  /** The text between the first markers. */
  function Read(s: string): string {
    Between(s, IndexOf(s, START), |START|, IndexOf(s, END))
  }

  function Between(s: string, start: int, width: nat, end: int): string {
    if start >= 0 && end >= start + width && end <= |s| then s[start + width..end] else ""
  }

  /** A rewritten brief: reading between the markers gives back the rendered body, and a
      second rewrite keeps exactly what the first kept around the block. */
  lemma RewrittenBrief(file: Option<string>, body: string, date: string)
    requires file.Some? ==> WellMarked(file.value)
    requires MarkerFree(body) && MarkerFree(date)
    ensures Read(Rewrite(file, body, date)) == Inner(body, date)
    ensures Around(Some(Rewrite(file, body, date))) == Around(file)
    ensures WellMarked(Rewrite(file, body, date))
  {
    var (before, after) := Around(file);
    RewriteShape(file, body, date);
    AroundMarkerFree(file);
    MarkedText(before, body, date, after);
  }

  lemma MarkedText(before: string, body: string, date: string, after: string)
    requires MarkerFree(before) && MarkerFree(body) && MarkerFree(date)
    ensures var whole := before + Block(body, date) + after;
      Read(whole) == Inner(body, date) && Around(Some(whole)) == (before, after) && WellMarked(whole)
  {
    BlockFound(before, body, date, after);
    TakeApart(before, START, Inner(body, date), END, after);
  }

  lemma TakeApart(prefix: string, s: string, inner: string, e: string, suffix: string)
    ensures var whole := prefix + (s + inner + e) + suffix;
      && whole[..|prefix|] == prefix
      && Between(whole, |prefix|, |s|, |prefix| + |s| + |inner|) == inner
      && whole[|prefix| + |s| + |inner| + |e|..] == suffix
  {
  }

  /** What the body comes down to: its trailing newlines dropped, and nothing else. */
  predicate Stripped(body: string, text: string) {
    && |text| <= |body| && text == body[..|text|]
    && (text == "" || text[|text| - 1] != '\n')
    && forall i :: |text| <= i < |body| ==> body[i] == '\n'
  }

  /** The text between the markers of a block. */
  ghost predicate Holds(inner: string, body: string, date: string) {
    exists text :: Stripped(body, text) && inner == "\n**Current state** \U{b7} updated " + date + "\n" + text + "\n"
  }

  lemma {:induction false} CutRightStrips(body: string)
    ensures Stripped(body, CutRight(body, "\n"))
  {
    if body != "" && body[|body| - 1] in "\n" {
      CutRightStrips(body[..|body| - 1]);
    }
  }

  lemma StrippedIsOne(body: string, a: string, b: string)
    requires Stripped(body, a) && Stripped(body, b)
    ensures a == b
  {
  }

  /** The body reaches the file: between the first markers of a rewritten brief there is a line
      with the date and then the body, its trailing newlines dropped. */
  lemma BodyReachesFile(file: Option<string>, body: string, date: string)
    requires file.Some? ==> WellMarked(file.value)
    requires MarkerFree(body) && MarkerFree(date)
    ensures var out := Rewrite(file, body, date);
      var start, end := IndexOf(out, "<!-- flow:state:start -->"), IndexOf(out, "<!-- flow:state:end -->");
      0 <= start && start + 25 <= end && Holds(out[start + 25..end], body, date)
  {
    MarkersAreMarkerLike();
    RewrittenBrief(file, body, date);
    CutRightStrips(body);
    InnerSpelled(body, date);
    BlockBetween(file, body, date);
  }

  lemma InnerSpelled(body: string, date: string)
    ensures Inner(body, date) == "\n**Current state** \U{b7} updated " + date + "\n" + CutRight(body, "\n") + "\n"
  {
    assert "\n" + HEADER == "\n**Current state** \U{b7} updated ";
  }

  lemma BlockBetween(file: Option<string>, body: string, date: string)
    requires file.Some? ==> WellMarked(file.value)
    requires MarkerFree(body) && MarkerFree(date)
    ensures var out := Rewrite(file, body, date);
      var start, end := IndexOf(out, START), IndexOf(out, END);
      0 <= start && start + |START| <= end <= |out| && out[start + |START|..end] == Inner(body, date)
  {
    RewrittenBrief(file, body, date);
    RewriteShape(file, body, date);
    AroundMarkerFree(file);
    BlockFound(Around(file).0, body, date, Around(file).1);
  }

  /** Two rewrites of one brief leave the same file exactly when, for dates without a newline, the
      dates agree and the bodies do up to trailing newlines. */
  lemma SameFileExactly(file: Option<string>, body1: string, date1: string, body2: string, date2: string,
                        text1: string, text2: string)
    requires file.Some? ==> WellMarked(file.value)
    requires MarkerFree(body1) && MarkerFree(date1) && MarkerFree(body2) && MarkerFree(date2)
    requires '\n' !in date1 && '\n' !in date2
    requires Stripped(body1, text1) && Stripped(body2, text2)
    ensures Rewrite(file, body1, date1) == Rewrite(file, body2, date2) <==> text1 == text2 && date1 == date2
  {
    SameFileSameInner(file, body1, date1, body2, date2);
    CutRightStrips(body1);
    CutRightStrips(body2);
    StrippedIsOne(body1, text1, CutRight(body1, "\n"));
    StrippedIsOne(body2, text2, CutRight(body2, "\n"));
    if Inner(body1, date1) == Inner(body2, date2) { InnerDecides("\n" + HEADER, date1, text1, date2, text2); }
  }

  lemma SameFileSameInner(file: Option<string>, body1: string, date1: string, body2: string, date2: string)
    requires file.Some? ==> WellMarked(file.value)
    requires MarkerFree(body1) && MarkerFree(date1) && MarkerFree(body2) && MarkerFree(date2)
    ensures Rewrite(file, body1, date1) == Rewrite(file, body2, date2) <==> Inner(body1, date1) == Inner(body2, date2)
  {
    BlockBetween(file, body1, date1);
    BlockBetween(file, body2, date2);
    RewriteShape(file, body1, date1);
    RewriteShape(file, body2, date2);
  }

  lemma InnerDecides(front: string, d1: string, t1: string, d2: string, t2: string)
    requires '\n' !in d1 && '\n' !in d2
    requires front + d1 + "\n" + t1 + "\n" == front + d2 + "\n" + t2 + "\n"
    ensures d1 == d2 && t1 == t2
  {
    var a, b := front + d1 + "\n" + t1 + "\n", front + d2 + "\n" + t2 + "\n";
    var n := |front|;
    assert a[n..n + |d1|] == d1 && b[n..n + |d2|] == d2;
    assert a[n + |d1|] == '\n' && b[n + |d2|] == '\n';
    assert forall i :: 0 <= i < |d1| ==> a[n + i] == d1[i];
    assert forall i :: 0 <= i < |d2| ==> b[n + i] == d2[i];
    var m := n + |d1| + 1;
    assert a[m..m + |t1|] == t1 && b[m..m + |t2|] == t2;
  }

  /** The newlines that put a blank line behind the text, no more than it takes. */
  predicate Gap(cur: string, gap: string) {
    && (if cur == "" then gap == "" else |gap| <= 2 && EndsWith(cur + gap, "\n\n"))
    && (|gap| == 2 ==> !EndsWith(cur, "\n")) && (|gap| == 1 ==> !EndsWith(cur, "\n\n"))
  }

  /** A brief without a block: the old text stays in front, then as many newlines as make a blank
      line, unless it is empty, then the block and one newline. A missing file becomes the block and
      one newline. */
  lemma AppendedAfterBlank(cur: string, body: string, date: string)
    requires MarkerFree(cur)
    ensures exists gap :: Gap(cur, gap) && Rewrite(Some(cur), body, date) == cur + gap + Block(body, date) + "\n"
    ensures Rewrite(None, body, date) == Rewrite(Some(""), body, date)
  {
    RewriteShape(Some(cur), body, date);
    var gap := Separator(cur);
    GapEnds(cur);
    assert Rewrite(Some(cur), body, date) == cur + gap + Block(body, date) + "\n";
    NothingIn("", START);
    NothingIn("", END);
    RewriteShape(Some(""), body, date);
    RewriteShape(None, body, date);
    assert Around(Some("")) == ("" + "", "\n");
    assert "" + "" == "";
  }

  lemma GapEnds(cur: string)
    ensures Gap(cur, Separator(cur))
  {
    var s := cur + Separator(cur);
    if cur != "" && !EndsWith(cur, "\n\n") && EndsWith(cur, "\n") {
      assert cur[|cur| - 1..] == "\n";
      assert s[|s| - 2..] == [cur[|cur| - 1]] + "\n";
      assert cur[|cur| - 1..][0] == cur[|cur| - 1];
    } else if cur != "" && !EndsWith(cur, "\n\n") {
      assert s[|s| - 2..] == "\n\n";
    } else {
      assert s == cur;
    }
  }

  /** Rewriting twice is writing only the second body. */
  lemma LastRewriteWins(file: Option<string>, body1: string, date1: string, body2: string, date2: string)
    requires file.Some? ==> WellMarked(file.value)
    requires MarkerFree(body1) && MarkerFree(date1)
    ensures Rewrite(Some(Rewrite(file, body1, date1)), body2, date2) == Rewrite(file, body2, date2)
  {
    RewrittenBrief(file, body1, date1);
    RewriteShape(file, body2, date2);
    RewriteShape(Some(Rewrite(file, body1, date1)), body2, date2);
  }

  /** Everything outside an existing block survives, and a brief without one is kept whole in
      front of the block. */
  lemma OutsideKept(cur: string, body: string, date: string)
    requires WellMarked(cur) && MarkerFree(body) && MarkerFree(date)
    ensures MarkerFree(cur) ==> cur <= Around(Some(Rewrite(Some(cur), body, date))).0
    ensures !MarkerFree(cur) ==>
      cur == Around(Some(Rewrite(Some(cur), body, date))).0 + START + Read(cur) + END
               + Around(Some(Rewrite(Some(cur), body, date))).1
  {
    RewrittenBrief(Some(cur), body, date);
    if !MarkerFree(cur) {
      var start, end := IndexOf(cur, START), IndexOf(cur, END);
      MarkersDoNotOverlap(cur, start, end);
      PutTogether(cur, START, start, END, end);
    }
  }

  lemma PutTogether(cur: string, s: string, start: int, e: string, end: int)
    requires StartsAt(cur, s, start) && StartsAt(cur, e, end) && start + |s| <= end
    ensures cur == cur[..start] + s + cur[start + |s|..end] + e + cur[end + |e|..]
  {
    assert cur == cur[..start] + cur[start..start + |s|] + cur[start + |s|..end] + cur[end..end + |e|] + cur[end + |e|..];
  }

  lemma MarkersDoNotOverlap(s: string, start: int, end: int)
    requires StartsAt(s, START, start) && StartsAt(s, END, end) && start < end
    ensures start + |START| <= end
  {
    MarkersAreMarkerLike();
    StartsAtChars(s, START, start);
    StartsAtChars(s, END, end);
  }

  // ----- the briefs for which the law fails -----

  /** Only a start marker: the second write swallows everything from the stray marker on. */
  lemma StrayStart(cur: string, body: string, date: string)
    requires MarkerFree(body) && MarkerFree(date)
    requires Contains(cur, START) && !Contains(cur, END)
    ensures Rewrite(Some(Rewrite(Some(cur), body, date)), body, date) != Rewrite(Some(cur), body, date)
  {
    var once := Rewrite(Some(cur), body, date);
    StrayStartFound(cur, body, date);
    var start, end := IndexOf(once, START), IndexOf(once, END);
    MarkersAreMarkerLike();
    RewriteLength(once, start, end, body, date);
  }

  lemma RewriteLength(cur: string, start: int, end: int, body: string, date: string)
    requires start == IndexOf(cur, START) && end == IndexOf(cur, END) && 0 <= start < end
    ensures |Rewrite(Some(cur), body, date)| == |cur| - (end + |END| - start) + |Block(body, date)|
  {
  }

  lemma StrayStartFound(cur: string, body: string, date: string)
    requires MarkerFree(body) && MarkerFree(date)
    requires Contains(cur, START) && !Contains(cur, END)
    ensures var once := Rewrite(Some(cur), body, date);
      && IndexOf(once, START) == IndexOf(cur, START) < |cur|
      && IndexOf(once, END) + |END| + 1 == |once|
      && |once| >= |cur| + |Block(body, date)| + 1
  {
    MarkersAreMarkerLike();
    var block := Block(body, date);
    var head := cur + Separator(cur);
    SeparatorHarmless(cur, START);
    SeparatorHarmless(cur, END);
    NothingIn("", START);
    NothingIn("", END);
    BlockFound("", body, date, "\n");
    NoPrefix(block, "\n");
    JoinIndex(head, block + "\n", START);
    JoinIndex(head, block + "\n", END);
    Regroup2(head, block, "\n");
  }

  /** An end marker first: every write appends another block. */
  lemma StrayEnd(cur: string, body: string, date: string)
    requires MarkerFree(body) && MarkerFree(date)
    requires Contains(cur, END) && !(0 <= IndexOf(cur, START) < IndexOf(cur, END))
    ensures Rewrite(Some(Rewrite(Some(cur), body, date)), body, date) != Rewrite(Some(cur), body, date)
  {
    MarkersAreMarkerLike();
    var block := Block(body, date);
    var head := cur + Separator(cur);
    var once := Rewrite(Some(cur), body, date);
    SeparatorHarmless(cur, START);
    SeparatorHarmless(cur, END);
    JoinIndex(head, block + "\n", START);
    JoinIndex(head, block + "\n", END);
    Regroup2(head, block, "\n");
    assert once == head + (block + "\n");
    assert IndexOf(once, END) == IndexOf(cur, END) < |cur|;
    assert IndexOf(once, START) < 0 || IndexOf(once, START) >= IndexOf(once, END);
    assert |Rewrite(Some(once), body, date)| > |once|;
  }

  /** Exactly which briefs may be rewritten repeatedly: those without markers and those whose
      first start marker precedes their first end marker. */
  lemma RewriteIdempotentExactly(cur: string, body: string, date: string)
    requires MarkerFree(body) && MarkerFree(date)
    ensures Rewrite(Some(Rewrite(Some(cur), body, date)), body, date) == Rewrite(Some(cur), body, date) <==> WellMarked(cur)
  {
    if WellMarked(cur) {
      LastRewriteWins(Some(cur), body, date, body, date);
    } else if Contains(cur, END) {
      StrayEnd(cur, body, date);
    } else {
      StrayStart(cur, body, date);
    }
  }
}

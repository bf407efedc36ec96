/**
  The rotating daemon log (sidecar/daemon_log.py).  Slot 0 is the current file, slot `i` the
  backup `daemon.log.i`.  Every operating-system effect spends one unit of a fault budget; when it
  is spent the process has crashed, the call has failed, or an interrupt has left it, between two effects.
*/
module DaemonLog {
  import opened Common

  const MAX_LINE_BYTES: nat := 4 * 1024
  const MAX_BACKUPS: nat := 3

  type Line = seq<byte>

  /** One record as written: a single newline, at its end. */
  predicate IsLine(l: Line) {
    |l| > 0 && l[|l| - 1] == NEWLINE && forall i | 0 <= i < |l| - 1 :: l[i] != NEWLINE
  }

  predicate NoNewline(s: seq<byte>) {
    forall i | 0 <= i < |s| :: s[i] != NEWLINE
  }

  predicate AreLines(ls: seq<Line>) {
    forall i | 0 <= i < |ls| :: IsLine(ls[i])
  }

  /** Lines are the newline-free sequences with a newline behind them. */
  lemma LinesAre(l: Line)
    ensures IsLine(l) <==> exists s :: NoNewline(s) && l == s + [NEWLINE]
  {
    if IsLine(l) {
      var s := l[..|l| - 1];
      assert NoNewline(s) && l == s + [NEWLINE];
    }
  }

  ghost predicate AreRecords(ls: seq<Line>, wellFormed: Line -> bool) {
    AreLines(ls) && forall i | 0 <= i < |ls| :: wellFormed(ls[i])
  }

  lemma JoinSnoc(a: seq<Line>, l: Line)
    ensures Join(a + [l]) == Join(a) + l
  {
    JoinAppend(a, [l]);
    assert [l][1..] == [];
  }

  // ---------- what is left in the directory ----------

  function Slot<T>(m: map<nat, seq<T>>, i: nat): seq<T> {
    if i in m then m[i] else []
  }

  /** The files read from the highest backup down to the current one; missing names count as empty. */
  function Gather<T>(m: map<nat, seq<T>>, top: nat): seq<T> {
    if top == 0 then Slot(m, 0) else Slot(m, top) + Gather(m, top - 1)
  }

  lemma {:induction false} GatherFrame<T>(m: map<nat, seq<T>>, n: map<nat, seq<T>>, top: nat)
    requires forall i | 0 <= i <= top :: Slot(m, i) == Slot(n, i)
    ensures Gather(m, top) == Gather(n, top)
  {
    if top > 0 {
      GatherFrame(m, n, top - 1);
    }
  }

  lemma GatherFree<T>(m: map<nat, seq<T>>, top: nat)
    requires 0 < top && top !in m
    ensures Gather(m, top) == Gather(m, top - 1)
  {
    assert Gather(m, top) == [] + Gather(m, top - 1);
  }

  /** Renaming slot `i - 1` to a free slot `i` changes nothing about what is read. */
  lemma {:induction false} GatherRename<T>(m: map<nat, seq<T>>, i: nat, top: nat)
    requires 0 < i <= top && i !in m && i - 1 in m
    ensures Gather((m - {i - 1})[i := m[i - 1]], top) == Gather(m, top)
  {
    var n := (m - {i - 1})[i := m[i - 1]];
    if top > i {
      GatherRename(m, i, top - 1);
      assert Slot(n, top) == Slot(m, top);
    } else {
      GatherRenamed(m, n, i);
    }
  }

  lemma GatherRenamed<T>(m: map<nat, seq<T>>, n: map<nat, seq<T>>, i: nat)
    requires 0 < i && i !in m && i - 1 !in n && Slot(n, i) == Slot(m, i - 1)
    requires forall j | 0 <= j < i - 1 :: Slot(n, j) == Slot(m, j)
    ensures Gather(n, i) == Gather(m, i)
  {
    GatherFree(m, i);
    if i == 1 {
      assert Gather(n, 1) == Slot(n, 1) + [] == Slot(n, 1);
    } else {
      GatherFree(n, i - 1);
      GatherFrame(n, m, i - 2);
    }
  }

  /** Without the highest slot, exactly its content is missing from the front. */
  lemma GatherDropTop<T>(m: map<nat, seq<T>>, top: nat)
    ensures Slot(m, top) + Gather(m - {top}, top) == Gather(m, top)
  {
    var rest := m - {top};
    if top > 0 {
      GatherFrame(rest, m, top - 1);
      GatherFree(rest, top);
    }
  }

  lemma GatherExtend<T>(m: map<nat, seq<T>>, x: T, top: nat)
    requires 0 in m
    ensures Gather(m[0 := m[0] + [x]], top) == Gather(m, top) + [x]
  {
    if top > 0 {
      GatherExtend(m, x, top - 1);
      assert Slot(m, top) + (Gather(m, top - 1) + [x]) == Slot(m, top) + Gather(m, top - 1) + [x];
    }
  }

  ghost predicate SuffixOf<T>(s: seq<T>, whole: seq<T>) {
    |s| <= |whole| && s == whole[|whole| - |s|..]
  }

  /**
    The directory holds a contiguous suffix of all committed lines: slot by slot whole lines, from the highest
    backup to the current file, and behind the lines of a file at most a torn one.
  */
  ghost predicate Sound(files: map<nat, seq<byte>>, lines: map<nat, seq<Line>>, tails: map<nat, seq<byte>>,
                        committed: seq<Line>, backups: nat, maxBytes: nat)
  {
    && files.Keys == lines.Keys == tails.Keys
    && (forall i | i in files :: i <= backups && FileOk(files[i], lines[i], tails[i], maxBytes))
    && SuffixOf(Gather(lines, backups), committed) && AreLines(committed)
  }

  predicate FileOk(file: seq<byte>, lines: seq<Line>, tail: seq<byte>, maxBytes: nat) {
    |file| <= maxBytes && file == Join(lines) + tail && NoNewline(tail)
  }

  // ---------- one rotation ----------

  /** The oldest file is all that a rotation may lose. */
  ghost predicate LosesAtMostOldest(before: map<nat, seq<Line>>, after: map<nat, seq<Line>>, backups: nat) {
    || Gather(after, backups) == Gather(before, backups)
    || Slot(before, backups) + Gather(after, backups) == Gather(before, backups)
  }

  /** How far the renames have come: slots above `i` hold what was one below, slot `i` is free, the rest as
      before. */
  ghost predicate Shifted(before: map<nat, seq<Line>>, now: map<nat, seq<Line>>, i: nat, backups: nat) {
    && 0 in now && LosesAtMostOldest(before, now, backups)
    && (i == backups ==> now == before)
    && (i < backups ==> i !in now)
    && (forall j | 0 <= j < i :: Slot(now, j) == Slot(before, j))
    && (forall j | i < j <= backups :: MovedUp(before, now, j))
  }

  predicate MovedUp(before: map<nat, seq<Line>>, now: map<nat, seq<Line>>, j: nat)
    requires j > 0
  {
    Slot(now, j) == Slot(before, j - 1)
  }

  lemma ShiftStep(before: map<nat, seq<Line>>, now: map<nat, seq<Line>>, next: map<nat, seq<Line>>, i: nat,
                  backups: nat)
    requires 1 < i <= backups && Shifted(before, now, i, backups)
    requires if i - 1 in now then
               && next == (now - {i - 1})[i := now[i - 1]]
               && (if i in now then Slot(now, backups) + Gather(next, backups) == Gather(now, backups)
                   else Gather(next, backups) == Gather(now, backups))
             else if i in now then
               next == now - {i} && Slot(now, backups) + Gather(next, backups) == Gather(now, backups)
             else next == now
    ensures Shifted(before, next, i - 1, backups)
  {
    assert forall j | 0 <= j < i - 1 :: Slot(next, j) == Slot(now, j);
    forall j | i <= j <= backups ensures MovedUp(before, next, j) {
      if j > i {
        assert MovedUp(before, now, j) && Slot(next, j) == Slot(now, j);
      }
    }
  }

  /** Every file has moved one slot up and the current name is free. */
  ghost predicate Retired(before: map<nat, seq<Line>>, now: map<nat, seq<Line>>, backups: nat) {
    && (backups >= 1 ==> LosesAtMostOldest(before, now, backups))
    && (forall j | 1 <= j <= backups :: MovedUp(before, now, j))
  }

  lemma RetireStep(before: map<nat, seq<Line>>, now: map<nat, seq<Line>>, next: map<nat, seq<Line>>, backups: nat)
    requires backups >= 1 && Shifted(before, now, 1, backups)
    requires next == (now - {0})[1 := now[0]]
    requires if 1 in now then Slot(now, backups) + Gather(next, backups) == Gather(now, backups)
             else Gather(next, backups) == Gather(now, backups)
    ensures Retired(before, next, backups)
  {
    forall j | 1 <= j <= backups ensures MovedUp(before, next, j) {
      if j > 1 {
        assert MovedUp(before, now, j) && Slot(next, j) == Slot(now, j);
      }
    }
  }

  lemma SuffixDrops<T>(lost: seq<T>, kept: seq<T>, whole: seq<T>)
    requires SuffixOf(lost + kept, whole)
    ensures SuffixOf(kept, whole)
  {
  }

  /** What is written behind a torn line makes one line with it. */
  lemma Glued(torn: seq<byte>, payload: Line)
    requires NoNewline(torn) && IsLine(payload)
    ensures IsLine(torn + payload)
  {
    var l := torn + payload;
    forall i | 0 <= i < |l| - 1 ensures l[i] != NEWLINE {
      assert i >= |torn| ==> l[i] == payload[i - |torn|];
    }
  }

  lemma NextPart(base: seq<byte>, payload: Line, offset: nat, n: nat)
    requires offset + n <= |payload|
    ensures base + payload[..offset] + payload[offset..offset + n] == base + payload[..offset + n]
    ensures payload[..|payload|] == payload
  {
  }

  /** A renamed file keeps its lines and its tail. */
  lemma SoundRenames(files: map<nat, seq<byte>>, lines: map<nat, seq<Line>>, tails: map<nat, seq<byte>>,
                     committed: seq<Line>, backups: nat, maxBytes: nat, from: nat)
    requires Sound(files, lines, tails, committed, backups, maxBytes) && from in files && from < backups
    requires SuffixOf(Gather((lines - {from})[from + 1 := lines[from]], backups), committed)
    ensures Sound((files - {from})[from + 1 := files[from]], (lines - {from})[from + 1 := lines[from]],
                  (tails - {from})[from + 1 := tails[from]], committed, backups, maxBytes)
  {
  }

  lemma GrownFile(file: seq<byte>, lines: seq<Line>, tail: seq<byte>, maxBytes: nat, chunk: seq<byte>)
    requires FileOk(file, lines, tail, maxBytes) && |file| + |chunk| <= maxBytes
    ensures NoNewline(chunk) ==> FileOk(file + chunk, lines, tail + chunk, maxBytes)
    ensures FileOk(file + chunk, lines + [tail + chunk], [], maxBytes)
  {
    assert Join(lines) + tail + chunk == Join(lines) + (tail + chunk);
    JoinSnoc(lines, tail + chunk);
  }

  /** A partial write behind the lines of the current file. */
  lemma SoundGrows(files: map<nat, seq<byte>>, lines: map<nat, seq<Line>>, tails: map<nat, seq<byte>>,
                   committed: seq<Line>, backups: nat, maxBytes: nat, chunk: seq<byte>)
    requires Sound(files, lines, tails, committed, backups, maxBytes) && 0 in files
    requires |files[0]| + |chunk| <= maxBytes && NoNewline(chunk)
    ensures Sound(files[0 := files[0] + chunk], lines, tails[0 := tails[0] + chunk], committed, backups, maxBytes)
  {
    GrownFile(files[0], lines[0], tails[0], maxBytes, chunk);
  }

  /** The write that makes a line whole. */
  lemma SoundCommits(files: map<nat, seq<byte>>, lines: map<nat, seq<Line>>, tails: map<nat, seq<byte>>,
                     committed: seq<Line>, backups: nat, maxBytes: nat, chunk: seq<byte>)
    requires Sound(files, lines, tails, committed, backups, maxBytes) && 0 in files
    requires |files[0]| + |chunk| <= maxBytes && IsLine(tails[0] + chunk)
    ensures var l := tails[0] + chunk;
            Sound(files[0 := files[0] + chunk], lines[0 := lines[0] + [l]], tails[0 := []], committed + [l], backups,
                  maxBytes)
  {
    GrownFile(files[0], lines[0], tails[0], maxBytes, chunk);
    GatherExtend(lines, tails[0] + chunk, backups);
    SuffixExtends(Gather(lines, backups), committed, tails[0] + chunk);
  }

  lemma SuffixExtends<T>(s: seq<T>, whole: seq<T>, x: T)
    requires SuffixOf(s, whole)
    ensures SuffixOf(s + [x], whole + [x])
  {
  }

  /** During one write only the current file changes, and it keeps what it had. */
  lemma OnlyCurrentGrew(saved: map<nat, seq<byte>>, files: map<nat, seq<byte>>, savedLines: map<nat, seq<Line>>,
                        lines: map<nat, seq<Line>>, savedTails: map<nat, seq<byte>>, tails: map<nat, seq<byte>>,
                        part: seq<byte>)
    requires saved.Keys == savedLines.Keys == savedTails.Keys && files.Keys == lines.Keys == tails.Keys && 0 in saved
    requires forall i | i in saved :: saved[i] == Join(savedLines[i]) + savedTails[i]
    requires forall i | i in files :: files[i] == Join(lines[i]) + tails[i]
    requires || (lines == savedLines && tails == savedTails[0 := savedTails[0] + part])
             || (lines == savedLines[0 := savedLines[0] + [savedTails[0] + part]] && tails == savedTails[0 := []])
    ensures 0 in files && |saved[0]| <= |files[0]| && files[0 := files[0][..|saved[0]|]] == saved
  {
    TruncatesBack(saved[0], savedLines[0], savedTails[0], files[0], lines[0], tails[0], part);
    assert forall i | i in files && i != 0 :: files[i] == saved[i];
  }

  lemma TruncatesBack(saved: seq<byte>, savedLines: seq<Line>, savedTail: seq<byte>, file: seq<byte>, lines: seq<Line>,
                      tail: seq<byte>, part: seq<byte>)
    requires saved == Join(savedLines) + savedTail && file == Join(lines) + tail
    requires || (lines == savedLines && tail == savedTail + part)
             || (lines == savedLines + [savedTail + part] && tail == [])
    ensures |saved| <= |file| && file[..|saved|] == saved
  {
    JoinSnoc(savedLines, savedTail + part);
    assert file == Join(savedLines) + (savedTail + part);
  }

  predicate Clear(data: seq<byte>, lo: nat, hi: nat)
    requires lo <= hi <= |data|
  {
    forall j | lo <= j < hi :: data[j] != NEWLINE
  }

  /** The first line reaches exactly to the first newline. */
  lemma FirstLine(data: seq<byte>, start: nat, ls: seq<Line>, i: nat)
    requires AreLines(ls) && ls != [] && start <= i <= |data| && data[start..] == Join(ls) && Clear(data, start, i)
    ensures i < |data| && (data[i] == NEWLINE ==> data[start..i + 1] == ls[0] && data[i + 1..] == Join(ls[1..]))
  {
    var l := ls[0];
    assert IsLine(l);
    assert data[start..][..|l|] == l && data[start..][|l|..] == Join(ls[1..]);
    assert forall j | 0 <= j < |l| :: data[start + j] == l[j];
    assert data[start + (|l| - 1)] == NEWLINE;
    assert i <= start + |l| - 1;
    if data[i] == NEWLINE {
      assert l[i - start] == NEWLINE;
      assert i == start + |l| - 1;
      assert data[start..i + 1] == data[start..][..|l|];
      assert data[i + 1..] == data[start..][|l|..];
    }
  }

  lemma {:induction false} JoinEnds(ls: seq<Line>)
    requires AreLines(ls)
    ensures Join(ls) != [] ==> Join(ls)[|Join(ls)| - 1] == NEWLINE
  {
    if ls != [] {
      JoinEnds(ls[1..]);
      assert IsLine(ls[0]);
    }
  }

  lemma EndOfLines(data: seq<byte>, ls: seq<Line>, torn: seq<byte>, end: nat)
    requires AreLines(ls) && data == Join(ls) + torn && NoNewline(torn)
    requires end <= |data| && NoNewline(data[end..]) && (end > 0 ==> data[end - 1] == NEWLINE)
    ensures end == |Join(ls)| && data[..end] == Join(ls) && data[end..] == torn
  {
    JoinEnds(ls);
    var n := |Join(ls)|;
    assert n > 0 ==> data[n - 1] == NEWLINE;
    assert forall j | n <= j < |data| :: data[j] == torn[j - n];
    assert forall j | end <= j < |data| :: data[j] == data[end..][j - end];
  }

  lemma {:induction false} GatherHas<T>(m: map<nat, seq<T>>, top: nat, x: T)
    requires 0 in m && x in m[0]
    ensures x in Gather(m, top)
  {
    if top > 0 {
      GatherHas(m, top - 1, x);
    }
  }

  predicate AllFormed(ls: seq<Line>, wellFormed: Line -> bool) {
    forall i | 0 <= i < |ls| :: wellFormed(ls[i])
  }

  /** What holds of all committed lines holds of those of the current file. */
  lemma CurrentIsCommitted(lines: map<nat, seq<Line>>, backups: nat, committed: seq<Line>, wellFormed: Line -> bool)
    requires SuffixOf(Gather(lines, backups), committed)
    ensures AreLines(committed) ==> AreLines(Slot(lines, 0))
    ensures AllFormed(committed, wellFormed) ==> AllFormed(Slot(lines, 0), wellFormed)
  {
    var current := Slot(lines, 0);
    forall i | 0 <= i < |current| ensures current[i] in committed {
      GatherHas(lines, backups, current[i]);
    }
  }

  lemma SoundTruncates(files: map<nat, seq<byte>>, lines: map<nat, seq<Line>>, tails: map<nat, seq<byte>>,
                       committed: seq<Line>, backups: nat, maxBytes: nat, end: nat)
    requires Sound(files, lines, tails, committed, backups, maxBytes) && 0 in files
    requires end <= |files[0]| && files[0][..end] == Join(lines[0])
    ensures Sound(files[0 := files[0][..end]], lines, tails[0 := []], committed, backups, maxBytes)
  {
    assert files[0][..end] == Join(lines[0]) + [];
  }

  /** No backup ends in a torn line. */
  predicate BackupsWhole(tails: map<nat, seq<byte>>) {
    forall i | i in tails && i > 0 :: tails[i] == []
  }

  lemma {:induction false} GatherJoins(files: map<nat, seq<byte>>, lines: map<nat, seq<Line>>, top: nat)
    requires files.Keys == lines.Keys && forall i | i in files :: files[i] == Join(lines[i])
    ensures Gather(files, top) == Join(Gather(lines, top))
  {
    assert Slot(files, top) == Join(Slot(lines, top));
    if top > 0 {
      GatherJoins(files, lines, top - 1);
      JoinAppend(Slot(lines, top), Gather(lines, top - 1));
    }
  }

  /** The bytes on disk, from the highest backup down, are those of a contiguous suffix of the committed lines. */
  ghost predicate ReadsBack(files: map<nat, seq<byte>>, lines: map<nat, seq<Line>>, committed: seq<Line>,
                            backups: nat) {
    SuffixOf(Gather(lines, backups), committed) && Gather(files, backups) == Join(Gather(lines, backups))
  }

  /** So they are when no line is torn. */
  lemma SoundReads(files: map<nat, seq<byte>>, lines: map<nat, seq<Line>>, tails: map<nat, seq<byte>>,
                   committed: seq<Line>, backups: nat, maxBytes: nat)
    requires Sound(files, lines, tails, committed, backups, maxBytes) && BackupsWhole(tails) && Slot(tails, 0) == []
    ensures ReadsBack(files, lines, committed, backups)
  {
    forall i | i in files ensures files[i] == Join(lines[i]) {
      assert tails[i] == [] && Join(lines[i]) + [] == Join(lines[i]);
    }
    GatherJoins(files, lines, backups);
  }

  /** Only records were committed, and at most one short torn record is left, in the current file. */
  ghost predicate CleanAt(committed: seq<Line>, tails: map<nat, seq<byte>>, wellFormed: Line -> bool, lineBytes: nat) {
    AreRecords(committed, wellFormed) && BackupsWhole(tails) && |Slot(tails, 0)| < lineBytes
  }

  lemma CleanCut(committed: seq<Line>, tails: map<nat, seq<byte>>, wellFormed: Line -> bool, lineBytes: nat)
    requires CleanAt(committed, tails, wellFormed, lineBytes) && lineBytes > 0
    ensures CleanAt(committed, tails[0 := []], wellFormed, lineBytes)
  {
  }

  lemma SameTails(tails: map<nat, seq<byte>>)
    requires 0 in tails
    ensures tails == tails[0 := Slot(tails, 0) + []]
  {
    assert Slot(tails, 0) + [] == tails[0];
  }

  /** One record more, or a part of it, keeps it so. */
  lemma CleanGrows(committed: seq<Line>, tails: map<nat, seq<byte>>, wellFormed: Line -> bool, lineBytes: nat,
                   payload: Line, part: seq<byte>)
    requires CleanAt(committed, tails, wellFormed, lineBytes) && IsLine(payload) && wellFormed(payload)
    requires |part| < lineBytes
    ensures CleanAt(committed + [payload], tails[0 := []], wellFormed, lineBytes)
    ensures CleanAt(committed, tails[0 := part], wellFormed, lineBytes)
  {
  }

  class RotatingLog {
    const maxBytes: nat
    const backups: nat
    const lineBytes: nat
    /** What `_validate_record_line` accepts. */
    const wellFormed: Line -> bool
    var files: map<nat, seq<byte>>
    var isOpen: bool
    var disabled: bool
    /** The descriptor is there and the current name is its file. */
    var attached: bool
    /** The whole lines of each file, the torn line behind them, and all lines ever committed. */
    ghost var lines: map<nat, seq<Line>>
    ghost var tails: map<nat, seq<byte>>
    ghost var committed: seq<Line>

    ghost predicate DirectoryValid()
      reads this
    {
      && 0 < maxBytes && 0 < lineBytes <= MAX_LINE_BYTES && backups <= MAX_BACKUPS
      && Sound(files, lines, tails, committed, backups, maxBytes)
    }

    /** A running log has a current file. */
    ghost predicate Valid()
      reads this
    {
      DirectoryValid() && (isOpen && !disabled && attached ==> 0 in files)
    }

    /** What is torn behind the lines of the current file. */
    ghost function Torn(): seq<byte>
      reads this
    {
      Slot(tails, 0)
    }

    ghost predicate Clean()
      reads this
    {
      CleanAt(committed, tails, wellFormed, lineBytes)
    }

    /** Besides, a running log has nothing torn: so it is as long as no interrupt leaves an append. */
    ghost predicate Tidy()
      reads this
    {
      Clean() && (isOpen && !disabled ==> attached && Torn() == [])
    }

    /** What `_repair_current` accepts. */
    ghost predicate Acceptable()
      reads this
    {
      AllFormed(Slot(lines, 0), wellFormed) && |Torn()| < lineBytes
    }

    constructor (maxBytes: nat, backups: nat, lineBytes: nat, wellFormed: Line -> bool)
      requires 0 < maxBytes && 0 < lineBytes <= MAX_LINE_BYTES && backups <= MAX_BACKUPS
      ensures Valid() && Tidy() && !isOpen && !disabled && !attached && files == map[] && committed == []
    {
      this.maxBytes, this.backups, this.lineBytes, this.wellFormed := maxBytes, backups, lineBytes, wellFormed;
      files, isOpen, disabled, attached := map[], false, false, false;
      lines, tails, committed := map[], map[], [];
      new;
      EmptyGather(backups);
    }

    // ---------- effects on the directory ----------

    /** `os.replace` of slot `from` over the next one; only the highest slot may be overwritten. */
    method Rename(from: nat)
      requires DirectoryValid() && from in files && from < backups
      requires from + 1 in files ==> from + 1 == backups
      modifies this`files, this`lines, this`tails
      ensures DirectoryValid()
      ensures lines == (old(lines) - {from})[from + 1 := old(lines)[from]]
      ensures tails == (old(tails) - {from})[from + 1 := old(tails)[from]]
      ensures from + 1 !in old(files) ==> Gather(lines, backups) == Gather(old(lines), backups)
      ensures from + 1 in old(files) ==>
                Slot(old(lines), backups) + Gather(lines, backups) == Gather(old(lines), backups)
    {
      ghost var free := lines - {from + 1};
      if from + 1 in files {
        GatherDropTop(lines, backups);
      } else {
        assert free == lines;
      }
      GatherRename(free, from + 1, backups);
      assert (free - {from})[from + 1 := free[from]] == (lines - {from})[from + 1 := lines[from]];
      if from + 1 in files {
        SuffixDrops(Slot(lines, backups), Gather(free, backups), committed);
      }
      SoundRenames(files, lines, tails, committed, backups, maxBytes, from);
      files := (files - {from})[from + 1 := files[from]];
      lines := (lines - {from})[from + 1 := lines[from]];
      tails := (tails - {from})[from + 1 := tails[from]];
    }

    /** `os.unlink` of the highest slot. */
    method UnlinkOldest()
      requires DirectoryValid() && backups in files
      modifies this`files, this`lines, this`tails
      ensures DirectoryValid() && lines == old(lines) - {backups} && tails == old(tails) - {backups}
      ensures Slot(old(lines), backups) + Gather(lines, backups) == Gather(old(lines), backups)
    {
      GatherDropTop(lines, backups);
      SuffixDrops(Slot(lines, backups), Gather(lines - {backups}, backups), committed);
      files, lines, tails := files - {backups}, lines - {backups}, tails - {backups};
    }

    /** Opening the current file creates it when it is missing. */
    method CreateCurrent()
      requires DirectoryValid() && 0 !in files
      modifies this`files, this`lines, this`tails
      ensures DirectoryValid() && lines == old(lines)[0 := []] && tails == old(tails)[0 := []] && files[0] == []
      ensures Gather(lines, backups) == Gather(old(lines), backups)
    {
      GatherFrame(lines[0 := []], lines, backups);
      files, lines, tails := files[0 := []], lines[0 := []], tails[0 := []];
    }

    // ---------- rotation ----------

    /** One iteration: slot `i` takes over from slot `i - 1`, or loses its file when that one is missing. */
    method ShiftOne(i: nat, ghost before: map<nat, seq<Line>>)
      requires DirectoryValid() && 1 < i <= backups && Shifted(before, lines, i, backups)
      modifies this`files, this`lines, this`tails
      ensures DirectoryValid() && Shifted(before, lines, i - 1, backups)
      ensures Torn() == old(Torn()) && (old(BackupsWhole(tails)) ==> BackupsWhole(tails))
      ensures 0 in old(files) ==> 0 in files && files[0] == old(files)[0] && lines[0] == old(lines)[0]
    {
      ghost var now := lines;
      if i - 1 in files {
        Rename(i - 1);
      } else if i in files {
        UnlinkOldest();
      }
      ShiftStep(before, now, lines, i, backups);
    }

    /** The renames of `_rotate` from the highest backup down to the second; `budget` bounds the iterations it gets
        through. */
    method ShiftBackups(budget: nat) returns (left: nat, i: nat)
      requires DirectoryValid() && 0 in files && backups >= 1
      modifies this`files, this`lines, this`tails
      ensures DirectoryValid() && 1 <= i <= backups && Shifted(old(lines), lines, i, backups)
      ensures (i > 1 ==> left == 0) && left + backups == budget + i
      ensures Torn() == old(Torn()) && (old(BackupsWhole(tails)) ==> BackupsWhole(tails))
      ensures 0 in files && files[0] == old(files)[0] && lines[0] == old(lines)[0]
    {
      left, i := budget, backups;
      while i > 1 && left > 0
        invariant 1 <= i <= backups && DirectoryValid() && Shifted(old(lines), lines, i, backups)
        invariant left + backups == budget + i
        invariant Torn() == old(Torn()) && (old(BackupsWhole(tails)) ==> BackupsWhole(tails))
        invariant 0 in files && files[0] == old(files)[0] && lines[0] == old(lines)[0]
      {
        ShiftOne(i, old(lines));
        left, i := left - 1, i - 1;
      }
    }

    /** The last rename, or the unlink when no backup is configured: the current name becomes free. */
    method RetireCurrent(ghost before: map<nat, seq<Line>>)
      requires DirectoryValid() && 0 in files
      requires if backups == 0 then lines == before else Shifted(before, lines, 1, backups)
      modifies this`files, this`lines, this`tails
      ensures DirectoryValid() && 0 !in files && Retired(before, lines, backups)
      ensures old(BackupsWhole(tails) && Torn() == []) ==> BackupsWhole(tails)
    {
      ghost var now := lines;
      if backups > 0 {
        Rename(0);
        RetireStep(before, now, lines, backups);
      } else {
        UnlinkOldest();
      }
    }

    method StartCurrent(ghost before: map<nat, seq<Line>>)
      requires DirectoryValid() && 0 !in files && Retired(before, lines, backups)
      modifies this`files, this`lines, this`tails
      ensures DirectoryValid() && Retired(before, lines, backups)
      ensures 0 in files && files[0] == [] && lines[0] == [] && tails == old(tails)[0 := []]
    {
      ghost var now := lines;
      CreateCurrent();
      forall j | 1 <= j <= backups ensures MovedUp(before, lines, j) {
        assert MovedUp(before, now, j) && Slot(lines, j) == Slot(now, j);
      }
    }

    /**
      `_rotate`.  Wherever it stops, what is left is a contiguous suffix of the committed lines and,
      with a backup configured, nothing but the oldest file was lost.  It lets go of the current file
      as a whole, or has not touched it.
    */
    method Rotate(budget: nat) returns (done: bool)
      requires DirectoryValid() && 0 in files
      modifies this`files, this`lines, this`tails
      ensures DirectoryValid()
      ensures backups >= 1 ==> LosesAtMostOldest(old(lines), lines, backups)
      ensures done <==> budget > Max(backups, 1)
      ensures done ==> Retired(old(lines), lines, backups) && 0 in files && files[0] == [] && lines[0] == []
      ensures done ==> Torn() == []
      ensures !done && 0 in files ==> Torn() == old(Torn()) && files[0] == old(files)[0] && lines[0] == old(lines)[0]
      ensures 0 !in files ==> !done
      ensures old(BackupsWhole(tails)) && (old(Torn()) == [] || (!done && 0 in files)) ==> BackupsWhole(tails)
      ensures old(Torn()) == [] ==> Torn() == [] && (old(Clean()) ==> Clean())
    {
      var left := budget;
      if backups > 0 {
        var reached;
        left, reached := ShiftBackups(budget);
      }
      if left == 0 {
        return false;
      }
      RetireCurrent(old(lines));
      if left == 1 {
        return false;
      }
      StartCurrent(old(lines));
      return true;
    }

    // ---------- append ----------

    /** `os.write` of bytes that do not make the line whole. */
    method WriteChunk(chunk: seq<byte>)
      requires DirectoryValid() && 0 in files && |files[0]| + |chunk| <= maxBytes && NoNewline(chunk)
      modifies this`files, this`tails
      ensures DirectoryValid() && tails == old(tails)[0 := old(Torn()) + chunk]
      ensures 0 in files && |files[0]| == |old(files)[0]| + |chunk|
    {
      SoundGrows(files, lines, tails, committed, backups, maxBytes, chunk);
      files, tails := files[0 := files[0] + chunk], tails[0 := tails[0] + chunk];
    }

    /** `os.write` of the bytes that make the line whole: from here on it is committed. */
    method WriteLast(chunk: seq<byte>)
      requires DirectoryValid() && 0 in files && |files[0]| + |chunk| <= maxBytes && IsLine(Torn() + chunk)
      modifies this`files, this`tails, this`lines, this`committed
      ensures DirectoryValid() && 0 in files && Wrote(old(lines), old(tails), old(committed), old(Torn()) + chunk)
    {
      SoundCommits(files, lines, tails, committed, backups, maxBytes, chunk);
      lines, committed := lines[0 := lines[0] + [tails[0] + chunk]], committed + [tails[0] + chunk];
      files, tails := files[0 := files[0] + chunk], tails[0 := []];
    }

    /** The first `offset` bytes of the payload were written behind what was torn. */
    ghost predicate Midway(tails': map<nat, seq<byte>>, payload: Line, offset: nat)
      reads this
    {
      0 in tails' && offset < |payload| && tails == tails'[0 := tails'[0] + payload[..offset]]
    }

    /** The next `n` bytes of the payload. */
    method WriteNext(payload: Line, ghost tails': map<nat, seq<byte>>, offset: nat, n: nat)
      requires DirectoryValid() && 0 in files && IsLine(payload) && Midway(tails', payload, offset)
               && NoNewline(tails'[0])
      requires 0 < n && offset + n <= |payload| && |files[0]| + n <= maxBytes
      modifies this`files, this`tails, this`lines, this`committed
      ensures DirectoryValid() && 0 in files
      ensures offset + n < |payload| ==>
                && Midway(tails', payload, offset + n) && |files[0]| == |old(files)[0]| + n
                && lines == old(lines) && committed == old(committed)
      ensures offset + n == |payload| ==> Wrote(old(lines), tails', old(committed), tails'[0] + payload)
    {
      var chunk := payload[offset..offset + n];
      ghost var base := tails'[0];
      NextPart(base, payload, offset, n);
      if offset + n == |payload| {
        Glued(base, payload);
        WriteLast(chunk);
      } else {
        WriteChunk(chunk);
      }
    }

    /** `line` is now the last of the current file and of all committed ones, with nothing torn behind it. */
    ghost predicate Wrote(lines': map<nat, seq<Line>>, tails': map<nat, seq<byte>>, committed': seq<Line>, line: Line)
      reads this
    {
      && 0 in lines' && lines == lines'[0 := lines'[0] + [line]] && tails == tails'[0 := []]
      && committed == committed' + [line]
    }

    /** `_write_all`: `writes` are the results of the successive `os.write` calls; running out of them is a stop. */
    method WriteAll(payload: Line, writes: seq<int>) returns (whole: bool, ghost part: seq<byte>)
      requires DirectoryValid() && 0 in files && IsLine(payload) && |files[0]| + |payload| <= maxBytes
      modifies this`files, this`tails, this`lines, this`committed
      ensures DirectoryValid() && 0 in files
      ensures !whole ==> lines == old(lines) && committed == old(committed)
      ensures !whole ==> part < payload && tails == old(tails)[0 := old(Torn()) + part]
      ensures whole ==> part == payload && Wrote(old(lines), old(tails), old(committed), old(Torn()) + payload)
      ensures Progresses(writes, |payload|) ==> whole
    {
      var offset, k := 0, 0;
      ghost var tails', size := tails, |files[0]|;
      assert payload[..0] == [];
      SameTails(tails);
      while offset < |payload|
        invariant offset < |payload| && DirectoryValid() && 0 in files && |files[0]| == size + offset
        invariant lines == old(lines) && committed == old(committed) && k <= offset
        invariant Midway(tails', payload, offset)
        decreases |payload| - offset
      {
        if k >= |writes| || writes[k] <= 0 {
          return false, payload[..offset];
        }
        var n := Min(writes[k], |payload| - offset);
        k := k + 1;
        WriteNext(payload, tails', offset, n);
        if offset + n == |payload| {
          return true, payload;
        }
        offset := offset + n;
      }
      assert false;
    }

    /** How an append that does not get through ends: `_disable` after an exception, the end of the process, or an
        interrupt, which leaves everything as it is. */
    method Stop(ending: Ending) returns (r: Reply)
      requires DirectoryValid()
      modifies this`isOpen, this`disabled, this`attached
      ensures Valid()
      ensures match ending
              case Fails => r == Refused && isOpen == old(isOpen) && disabled && !attached
              case Crashes => r == Crashed && !isOpen && !disabled && !attached
              case Interrupts =>
                r == Interrupted && isOpen == old(isOpen) && disabled == old(disabled) && attached == (0 in files)
    {
      match ending {
        case Fails =>
          disabled, attached := true, false;
          return Refused;
        case Crashes =>
          isOpen, disabled, attached := false, false, false;
          return Crashed;
        case Interrupts =>
          attached := 0 in files;
          return Interrupted;
      }
    }

    /** `os.ftruncate` back to the size before the write: the directory is what it was. */
    method TakeBack(before: nat, ghost saved: map<nat, seq<byte>>, ghost savedLines: map<nat, seq<Line>>,
                    ghost savedTails: map<nat, seq<byte>>, ghost savedCommitted: seq<Line>)
      requires DirectoryValid() && 0 in files && before <= |files[0]|
      requires Sound(saved, savedLines, savedTails, savedCommitted, backups, maxBytes)
      requires files[0 := files[0][..before]] == saved
      modifies this`files, this`lines, this`tails, this`committed
      ensures DirectoryValid() && files == saved && lines == savedLines && tails == savedTails
      ensures committed == savedCommitted
    {
      files := files[0 := files[0][..before]];
      lines, tails, committed := savedLines, savedTails, savedCommitted;
    }

    /** The write of an append that fits, up to its acknowledgement, its rollback, the crash or the interrupt. */
    method WriteRecord(payload: Line, faults: Faults) returns (r: Reply, ghost part: seq<byte>)
      requires Valid() && isOpen && !disabled && attached && IsLine(payload) && |files[0]| + |payload| <= maxBytes
      modifies this
      ensures Valid()
      ensures if part == payload then Wrote(old(lines), old(tails), old(committed), old(Torn()) + payload)
              else
                && part < payload && tails == old(tails)[0 := old(Torn()) + part]
                && lines == old(lines) && committed == old(committed)
      ensures r.Acknowledged? ==> part == payload && !faults.syncFails
      ensures r.Refused? && !faults.truncateFails ==> part == [] && files == old(files)
      ensures EndsAs(r, faults) && (r.Interrupted? ==> attached)
      ensures Progresses(faults.writes, |payload|) && !faults.syncFails ==> r.Acknowledged?
    {
      var before := |files[0]|;
      ghost var saved, savedLines, savedTails, savedCommitted := files, lines, tails, committed;
      var whole, written := WriteAll(payload, faults.writes);
      part := written;
      if whole && !faults.syncFails {
        r := Acknowledged;
        return;
      }
      if faults.ending.Fails? && !faults.truncateFails {
        OnlyCurrentGrew(saved, files, savedLines, lines, savedTails, tails, part);
        TakeBack(before, saved, savedLines, savedTails, savedCommitted);
        part := [];
        SameTails(tails);
      }
      r := Stop(faults.ending);
    }

    /** What each reply says about the state of the log. */
    ghost predicate EndsAs(r: Reply, faults: Faults)
      reads this
    {
      match r
      case Acknowledged => isOpen && !disabled && attached && Torn() == []
      case Refused => disabled || !isOpen
      case Crashed => faults.ending.Crashes? && !isOpen
      case Interrupted => faults.ending.Interrupts? && isOpen && !disabled
    }

    /** The bytes that an append finds torn and writes behind: none if it rotates first. */
    ghost function Glue(payload: Line): seq<byte>
      reads this
    {
      if Fits(payload) then Torn() else []
    }

    /** `line` was added to the current file and to the committed lines, or nothing was. */
    ghost predicate Grew(kept: map<nat, seq<Line>>, committed': seq<Line>, line: Line)
      reads this
    {
      || (lines == kept && committed == committed')
      || (0 in kept && lines == kept[0 := kept[0] + [line]] && committed == committed' + [line])
    }

    /** An append for which the current file has room. */
    method AppendFitting(payload: Line, faults: Faults) returns (r: Reply)
      requires Valid() && isOpen && !disabled && attached && IsLine(payload)
      requires |payload| <= lineBytes && |files[0]| + |payload| <= maxBytes
      modifies this
      ensures Valid() && EndsAs(r, faults) && Grew(old(lines), old(committed), old(Torn()) + payload)
      ensures r.Acknowledged? ==> committed == old(committed) + [old(Torn()) + payload] && !faults.syncFails
      ensures r.Refused? && !faults.truncateFails ==> committed == old(committed) && files == old(files)
      ensures Progresses(faults.writes, |payload|) && !faults.syncFails ==> r.Acknowledged?
      ensures old(Tidy()) && wellFormed(payload) ==> Clean() && (r.Interrupted? || Tidy())
    {
      ghost var tails', committed', part := tails, committed, [];
      r, part := WriteRecord(payload, faults);
      if old(Tidy()) && wellFormed(payload) {
        CleanGrows(committed', tails', wellFormed, lineBytes, payload, if part == payload then [] else part);
        assert old(Torn()) + payload == payload && old(Torn()) + part == part;
      }
    }

    /** What an append needs to know of its rotation. */
    method ClearCurrent(budget: nat) returns (done: bool)
      requires DirectoryValid() && 0 in files
      modifies this`files, this`lines, this`tails
      ensures DirectoryValid() && (backups >= 1 ==> LosesAtMostOldest(old(lines), lines, backups))
      ensures budget >= backups + 2 ==> done
      ensures done ==> 0 in files && files[0] == [] && lines[0] == [] && Torn() == []
      ensures old(Torn()) == [] ==> Torn() == [] && (old(Clean()) ==> Clean())
    {
      done := Rotate(budget);
    }

    /** An append that has to rotate first. */
    method AppendFull(payload: Line, faults: Faults) returns (r: Reply, ghost kept: map<nat, seq<Line>>)
      requires Valid() && isOpen && !disabled && attached && IsLine(payload)
      requires |payload| <= Min(lineBytes, maxBytes)
      modifies this
      ensures Valid() && EndsAs(r, faults) && Grew(kept, old(committed), payload)
      ensures r.Acknowledged? ==> committed == old(committed) + [payload] && Slot(lines, 0) == [payload]
      ensures r.Acknowledged? ==> !faults.syncFails
      ensures r.Refused? && !faults.truncateFails ==> committed == old(committed)
      ensures backups >= 1 ==> LosesAtMostOldest(old(lines), kept, backups)
      ensures Works(faults, backups, |payload|) ==> r.Acknowledged?
      ensures old(Tidy()) && wellFormed(payload) ==> Clean() && (r.Interrupted? || Tidy())
    {
      var done := ClearCurrent(faults.rotation);
      kept := lines;
      if !done {
        r := Stop(faults.ending);
        return;
      }
      ghost var current := Torn() + payload;
      assert current == payload && [] + [payload] == [payload];
      r := AppendFitting(payload, faults);
    }

    predicate Fits(payload: Line)
      reads this
    {
      0 in files && |files[0]| + |payload| <= maxBytes
    }

    /**
      `append`.  Acknowledged means committed, as one line with whatever was torn before it; refused with a working
      truncation means that the record left no trace; a crash or an interrupt leaves it whole or torn.  The current
      file never outgrows its bound, and only a full one is rotated: `kept` is what the rotation left, where with a
      backup configured only the oldest file may be missing.
    */
    method Append(payload: Line, faults: Faults) returns (r: Reply, ghost kept: map<nat, seq<Line>>)
      requires Valid() && IsLine(payload)
      modifies this
      ensures Valid() && EndsAs(r, faults) && Grew(kept, old(committed), old(Glue(payload) + payload))
      ensures r.Acknowledged? ==> committed == old(committed) + [old(Glue(payload) + payload)] && !faults.syncFails
      ensures r.Acknowledged? && !old(Fits(payload)) ==> Slot(lines, 0) == [payload]
      ensures r.Refused? && !faults.truncateFails ==>
                committed == old(committed) && (old(Fits(payload)) ==> files == old(files))
      ensures backups >= 1 ==> LosesAtMostOldest(old(lines), kept, backups)
      ensures 0 in old(files) && |old(files)[0]| + |payload| <= maxBytes ==> kept == old(lines)
      ensures !old(isOpen && !disabled && attached) || |payload| > Min(lineBytes, maxBytes) ==>
                r == Refused && files == old(files) && committed == old(committed)
      ensures |payload| <= Min(lineBytes, maxBytes) && old(isOpen && !disabled && attached)
              && Works(faults, backups, |payload|) ==>
                r == Acknowledged
      ensures old(Tidy()) && wellFormed(payload) ==> Clean() && (r.Interrupted? || Tidy())
    {
      kept := lines;
      ghost var line := Glue(payload) + payload;
      assert !Fits(payload) ==> line == payload;
      if !isOpen || disabled {
        r := Refused;
      } else if |payload| > Min(lineBytes, maxBytes) || !attached {
        r := Stop(Fails);
      } else if |files[0]| + |payload| > maxBytes {
        r, kept := AppendFull(payload, faults);
      } else {
        r := AppendFitting(payload, faults);
      }
    }

    // ---------- recovery ----------

    /** The validation loop of `_repair_current` over the complete part of the file, which is `ls`. */
    method ValidateLines(data: seq<byte>, ghost ls: seq<Line>) returns (ok: bool)
      requires AreLines(ls) && data == Join(ls)
      ensures ok <==> forall i | 0 <= i < |ls| :: wellFormed(ls[i])
    {
      var start, i := 0, 0;
      ghost var k := 0;
      while i < |data|
        invariant 0 <= k <= |ls| && start <= i <= |data|
        invariant data[start..] == Join(ls[k..]) && Clear(data, start, i)
        invariant forall j | 0 <= j < k :: wellFormed(ls[j])
      {
        assert k < |ls|;
        FirstLine(data, start, ls[k..], i);
        if data[i] == NEWLINE {
          if !wellFormed(data[start..i + 1]) {
            return false;
          }
          assert ls[k + 1..] == ls[k..][1..];
          start, k := i + 1, k + 1;
        }
        i := i + 1;
      }
      if k < |ls| {
        FirstLine(data, start, ls[k..], i);
        assert false;
      }
      ok := true;
    }

    /** `rfind` of the last newline: where the complete lines end. */
    method CompleteEnd(data: seq<byte>) returns (end: nat)
      ensures end <= |data| && NoNewline(data[end..]) && (end > 0 ==> data[end - 1] == NEWLINE)
    {
      end := |data|;
      while end > 0 && data[end - 1] != NEWLINE
        invariant end <= |data| && NoNewline(data[end..])
      {
        end := end - 1;
      }
    }

    /**
      `_repair_current`.  It accepts exactly a file whose complete lines are records and whose torn suffix is short, and
      removes that suffix, if the truncation gets through.
    */
    method Repair(truncates: bool) returns (ok: bool)
      requires DirectoryValid() && 0 in files
      modifies this`files, this`tails
      ensures DirectoryValid() && 0 in files
      ensures ok <==>
                && (forall i | 0 <= i < |old(lines)[0]| :: wellFormed(old(lines)[0][i]))
                && (|old(tails)[0]| == 0 || (|old(tails)[0]| < lineBytes && truncates))
      ensures if ok then tails == old(tails)[0 := []] else files == old(files) && tails == old(tails)
    {
      var data := files[0];
      var end, valid := Examine();
      if end == |data| {
        assert tails == tails[0 := []];
        return valid;
      }
      if !valid || |data| - end >= lineBytes || !truncates {
        return false;
      }
      SoundTruncates(files, lines, tails, committed, backups, maxBytes, end);
      files, tails := files[0 := data[..end]], tails[0 := []];
      ok := true;
    }

    /** Where the complete lines of the current file end, and whether they are all records. */
    method Examine() returns (end: nat, valid: bool)
      requires DirectoryValid() && 0 in files
      ensures end <= |files[0]| && files[0][..end] == Join(lines[0]) && |files[0]| - end == |Torn()|
      ensures valid <==> AllFormed(Slot(lines, 0), wellFormed)
    {
      var data := files[0];
      CurrentIsCommitted(lines, backups, committed, wellFormed);
      end := CompleteEnd(data);
      EndOfLines(data, lines[0], tails[0], end);
      valid := ValidateLines(data[..end], lines[0]);
    }

    /** The first part of `open`: a current file that was not there is created, within the budget. */
    method MakeCurrent(budget: nat) returns (left: nat)
      requires DirectoryValid()
      modifies this`files, this`lines, this`tails
      ensures DirectoryValid()
      ensures lines == old(lines) || (0 !in old(lines) && lines == old(lines)[0 := []])
      ensures Torn() == old(Torn()) && Slot(lines, 0) == Slot(old(lines), 0)
      ensures old(Clean()) ==> Clean()
      ensures left == budget - (if 0 !in old(files) && budget > 0 then 1 else 0)
      ensures 0 in files <==> 0 in old(files) || budget > 0
      ensures Gather(lines, backups) == Gather(old(lines), backups)
    {
      left := budget;
      if 0 !in files && left > 0 {
        left := left - 1;
        CreateCurrent();
      }
    }

    /**
      `open`.  Unless it is interrupted itself it succeeds exactly when the current file is acceptable, without losing
      a line; a file that only crashes have left behind always is, and then the files from the highest backup down
      to the current one are, byte for byte, a contiguous suffix of the committed records.
    */
    method Open(budget: nat) returns (ok: bool)
      requires Valid() && !isOpen
      modifies this
      ensures Valid() && committed == old(committed)
      ensures lines == old(lines) || (0 !in old(lines) && lines == old(lines)[0 := []])
      ensures Gather(lines, backups) == Gather(old(lines), backups)
      ensures budget >= 2 ==> (ok <==> old(Acceptable()))
      ensures ok <==> old(Acceptable()) && (budget > 0 || (0 in old(files) && old(Torn()) == []))
      ensures budget >= 2 && 0 in old(files) ==>
                (ok <==>
                  (forall i | 0 <= i < |old(lines)[0]| :: wellFormed(old(lines)[0][i])) && |old(tails)[0]| < lineBytes)
      ensures if ok then isOpen && !disabled && attached && Torn() == [] else !isOpen
      ensures old(Clean()) ==> Tidy() && old(Acceptable())
      ensures ok && old(Clean()) ==> ReadsBack(files, lines, committed, backups)
    {
      if Clean() { CleanIsAcceptable(); }
      var left := MakeCurrent(budget);
      if 0 in files {
        ok := Adopt(left > 0);
      } else {
        ok := false;
      }
    }

    /** The last part of `open`: the current file is repaired and taken over. */
    method Adopt(truncates: bool) returns (ok: bool)
      requires DirectoryValid() && 0 in files && !isOpen
      modifies this`files, this`tails, this`isOpen, this`disabled, this`attached
      ensures Valid()
      ensures ok <==> old(Acceptable()) && (old(Torn()) == [] || truncates)
      ensures if ok then isOpen && !disabled && attached && Torn() == [] else !isOpen
      ensures old(Clean()) ==> Tidy() && (ok ==> ReadsBack(files, lines, committed, backups))
    {
      ghost var tails' := tails;
      ok := Repair(truncates);
      if old(Clean()) { CleanCut(committed, tails', wellFormed, lineBytes); }
      if ok {
        isOpen, disabled, attached := true, false, true;
        if old(Clean()) { SoundReads(files, lines, tails, committed, backups, maxBytes); }
      }
    }

    lemma CleanIsAcceptable()
      requires DirectoryValid() && Clean()
      ensures Acceptable()
    {
      CurrentIsCommitted(lines, backups, committed, wellFormed);
    }

    /** The end of the process. */
    method Kill()
      requires Valid()
      modifies this`isOpen, this`disabled, this`attached
      ensures Valid() && !isOpen && !disabled && !attached && (old(Clean()) ==> Tidy())
    {
      isOpen, disabled, attached := false, false, false;
    }

    /** One more line decides whether the file is acceptable. */
    lemma GluedDecides(current: seq<Line>, line: Line)
      requires AllFormed(current, wellFormed)
      ensures AllFormed(current + [line], wellFormed) <==> wellFormed(line)
    {
      if AllFormed(current + [line], wellFormed) {
        assert (current + [line])[|current|] == line;
      }
    }

    /**
      A log that an interrupt left open goes on: the next acknowledged record.  The file is acceptable to the next
      `open` exactly when nothing was torn where the record was written, or when the torn bytes and the record happen
      to make a record together.
    */
    method GoOn(payload: Line, faults: Faults) returns (r: Reply)
      requires Valid() && Clean() && isOpen && !disabled && IsLine(payload) && wellFormed(payload)
      modifies this
      ensures Valid()
      ensures r.Acknowledged? ==>
                (Acceptable() <==> old(Glue(payload)) == [] || wellFormed(old(Glue(payload)) + payload))
    {
      ghost var glue, current, kept := Glue(payload), Slot(lines, 0), map[];
      CurrentIsCommitted(lines, backups, committed, wellFormed);
      r, kept := Append(payload, faults);
      assert [] + payload == payload && [] + [payload] == [payload];
      GluedDecides(current, glue + payload);
      GluedDecides([], payload);
    }

    /** And so the restart after it. */
    method GoOnAndReopen(payload: Line, faults: Faults, budget: nat) returns (r: Reply, reopened: bool)
      requires Valid() && Clean() && isOpen && !disabled && IsLine(payload) && wellFormed(payload) && budget >= 2
      modifies this
      ensures Valid()
      ensures r.Acknowledged? ==>
                (reopened <==> old(Glue(payload)) == [] || wellFormed(old(Glue(payload)) + payload))
    {
      r := GoOn(payload, faults);
      Kill();
      reopened := Open(budget);
    }

    /**
      Any life of the log: records appended under any faults, interrupts included, crashes, and reopenings that may
      themselves be interrupted.  What was committed is, in order, what was acknowledged plus at most one record for
      each append that was cut short, each behind whatever an interrupt had left torn; and what is on disk is always a
      contiguous suffix of it.  Without interrupts nothing is ever glued; and as long as the operating system works and
      the log is reopened after each death, every record is acknowledged.
    */
    method Live(script: seq<Deed>) returns (acknowledged: seq<Line>, ghost account: Account)
      requires Valid() && forall i | 0 <= i < |script| && script[i].Log? :: IsLine(script[i].payload)
      modifies this
      ensures Valid() && old(committed) <= committed && |account.marks| <= |script|
      ensures Accounts(acknowledged, committed[|old(committed)|..], account)
      ensures old(Tidy()) && Uninterrupted(script, wellFormed) ==>
                Tidy() && account.payloads == committed[|old(committed)|..]
      ensures old(Tidy() && !disabled) && Uninterrupted(script, wellFormed) && Served(script, old(isOpen)) ==>
                acknowledged == Payloads(script, |script|)
    {
      acknowledged, account := [], Account([], [], []);
      ghost var origin, start := |committed|, isOpen;
      ghost var calm := Tidy() && Uninterrupted(script, wellFormed);
      ghost var served := calm && !disabled && Served(script, start);
      assert committed[origin..] == [];
      for i := 0 to |script|
        invariant Valid() && old(committed) <= committed && |account.marks| <= i
        invariant Accounts(acknowledged, committed[origin..], account)
        invariant calm ==> GoesWell(account, origin)
        invariant served ==> KeepsUp(script, i, start, acknowledged)
      {
        acknowledged, account := DoNext(script, i, start, acknowledged, account, origin, calm, served);
      }
    }

    /** Nothing is torn or glued. */
    ghost predicate GoesWell(account: Account, origin: nat)
      reads this
    {
      Tidy() && origin <= |committed| && account.payloads == committed[origin..]
    }

    /** After `n` deeds the log is where it should be and has acknowledged everything. */
    ghost predicate KeepsUp(script: seq<Deed>, n: nat, start: bool, acknowledged: seq<Line>)
      requires n <= |script|
      reads this
    {
      !disabled && isOpen == Running(script, n, start) && acknowledged == Payloads(script, n)
    }

    method DoNext(script: seq<Deed>, i: nat, ghost start: bool, acknowledged: seq<Line>, ghost account: Account,
                  ghost origin: nat, ghost calm: bool, ghost served: bool)
      returns (acknowledged': seq<Line>, ghost account': Account)
      requires Valid() && i < |script| && (script[i].Log? ==> IsLine(script[i].payload)) && origin <= |committed|
      requires Accounts(acknowledged, committed[origin..], account)
      requires calm ==> Uninterrupted(script, wellFormed) && GoesWell(account, origin)
      requires served ==> calm && Served(script, start) && KeepsUp(script, i, start, acknowledged)
      modifies this
      ensures Valid() && old(committed) <= committed && |account'.marks| <= |account.marks| + 1
      ensures Accounts(acknowledged', committed[origin..], account')
      ensures calm ==> GoesWell(account', origin)
      ensures served ==> KeepsUp(script, i + 1, start, acknowledged')
    {
      assert calm ==> Calm(script[i], wellFormed);
      assert served ==> Servable(script[i], Running(script, i, start));
      acknowledged', account' := Do(script[i], acknowledged, account, origin);
    }

    /** One deed of a life. */
    method Do(deed: Deed, acknowledged: seq<Line>, ghost account: Account, ghost origin: nat)
      returns (acknowledged': seq<Line>, ghost account': Account)
      requires Valid() && (deed.Log? ==> IsLine(deed.payload)) && origin <= |committed|
      requires Accounts(acknowledged, committed[origin..], account)
      modifies this
      ensures Valid() && old(committed) <= committed && |account'.marks| <= |account.marks| + 1
      ensures Accounts(acknowledged', committed[origin..], account')
      ensures old(Tidy()) && Calm(deed, wellFormed) ==> Tidy()
      ensures old(Tidy()) && account.payloads == old(committed)[origin..] ==> account'.payloads == committed[origin..]
      ensures old(Tidy() && !disabled) && Calm(deed, wellFormed) && Servable(deed, old(isOpen)) ==>
                && !disabled && isOpen == RunsAfter(deed, old(isOpen))
                && acknowledged' == acknowledged + Payload(deed)
    {
      acknowledged', account' := acknowledged, account;
      match deed {
        case Log(payload, faults) =>
          acknowledged', account' := LogOne(payload, faults, acknowledged, account, origin);
        case Reopen(budget) =>
          if !isOpen { var _ := Open(budget); }
        case Death => Kill();
      }
    }

    /** A record that is not too long, under an operating system that works. */
    ghost predicate Manageable(payload: Line, faults: Faults) {
      |payload| <= Min(lineBytes, maxBytes) && Works(faults, backups, |payload|)
    }

    /** Every record is manageable and finds the log running, and every reopening gets through. */
    ghost predicate Served(script: seq<Deed>, running: bool) {
      forall i | 0 <= i < |script| :: Servable(script[i], Running(script, i, running))
    }

    ghost predicate Servable(deed: Deed, running: bool) {
      match deed
      case Log(payload, faults) => running && Manageable(payload, faults)
      case Reopen(budget) => budget >= 2
      case Death => true
    }

    /** One append of a life. */
    method LogOne(payload: Line, faults: Faults, acknowledged: seq<Line>, ghost account: Account, ghost origin: nat)
      returns (acknowledged': seq<Line>, ghost account': Account)
      requires Valid() && IsLine(payload) && origin <= |committed|
      requires Accounts(acknowledged, committed[origin..], account)
      modifies this
      ensures Valid() && old(committed) <= committed && |account'.marks| <= |account.marks| + 1
      ensures Accounts(acknowledged', committed[origin..], account')
      ensures old(Tidy()) && wellFormed(payload) && !faults.ending.Interrupts? ==> Tidy()
      ensures old(Tidy()) && account.payloads == old(committed)[origin..] ==> account'.payloads == committed[origin..]
      ensures old(Tidy() && isOpen && !disabled) && Manageable(payload, faults) ==>
                isOpen && !disabled && acknowledged' == acknowledged + [payload]
    {
      ghost var was, glue, kept := committed, Glue(payload), map[];
      var r;
      r, kept := Append(payload, faults);
      acknowledged', account' := acknowledged, account;
      if committed != was {
        assert committed[origin..] == was[origin..] + [glue + payload];
        AccountsMore(acknowledged, was[origin..], account, glue, payload, r.Acknowledged?);
        account' := More(account, glue, payload, r.Acknowledged?);
        assert glue == [] ==> glue + payload == payload;
      }
      if r.Acknowledged? {
        acknowledged' := acknowledged + [payload];
      }
    }
  }

  /** For each committed line: what was torn before it, the record, and whether it was acknowledged. */
  datatype Account = Account(glues: seq<seq<byte>>, payloads: seq<Line>, marks: seq<bool>)

  function More(a: Account, glue: seq<byte>, payload: Line, mark: bool): Account {
    Account(a.glues + [glue], a.payloads + [payload], a.marks + [mark])
  }

  /** The committed lines are the records behind what was torn, and exactly the marked ones were acknowledged. */
  ghost predicate Accounts(acknowledged: seq<Line>, committed: seq<Line>, a: Account) {
    && |a.glues| == |a.payloads| == |a.marks| == |committed|
    && (forall i | 0 <= i < |committed| :: committed[i] == a.glues[i] + a.payloads[i])
    && acknowledged == Marked(a.payloads, a.marks)
  }

  lemma AccountsMore(acknowledged: seq<Line>, committed: seq<Line>, a: Account, glue: seq<byte>, payload: Line,
                     mark: bool)
    requires Accounts(acknowledged, committed, a)
    ensures var all := if mark then acknowledged + [payload] else acknowledged;
            Accounts(all, committed + [glue + payload], More(a, glue, payload, mark))
  {
    MarkedSnoc(a.payloads, a.marks, payload, mark);
  }

  /** Only records are logged, and no interrupt leaves an append. */
  predicate Uninterrupted(script: seq<Deed>, wellFormed: Line -> bool) {
    forall i | 0 <= i < |script| :: Calm(script[i], wellFormed)
  }

  predicate Calm(deed: Deed, wellFormed: Line -> bool) {
    deed.Log? ==> wellFormed(deed.payload) && !deed.faults.ending.Interrupts?
  }

  lemma {:induction false} EmptyGather(top: nat)
    ensures Gather<Line>(map[], top) == []
  {
    if top > 0 {
      EmptyGather(top - 1);
    }
  }

  /** What becomes of an append that runs out: an exception that it handles, the end of the process, or an interrupt
      that it passes on. */
  datatype Ending = Fails | Crashes | Interrupts

  /** What the operating system does to one append. */
  datatype Faults = Faults(rotation: nat, writes: seq<int>, syncFails: bool, truncateFails: bool, ending: Ending)

  /** Every one of the first `size` writes takes something. */
  predicate Progresses(writes: seq<int>, size: nat) {
    |writes| >= size && forall k | 0 <= k < size :: writes[k] > 0
  }

  /** The operating system does everything it is asked to do, if only bit by bit. */
  predicate Works(faults: Faults, backups: nat, size: nat) {
    faults.rotation >= backups + 2 && Progresses(faults.writes, size) && !faults.syncFails
  }

  datatype Reply = Acknowledged | Refused | Crashed | Interrupted

  datatype Deed = Log(payload: Line, faults: Faults) | Reopen(budget: nat) | Death

  /** Whether the log runs before deed `n`, if nothing goes wrong. */
  predicate Running(script: seq<Deed>, n: nat, start: bool)
    requires n <= |script|
  {
    if n == 0 then start else RunsAfter(script[n - 1], Running(script, n - 1, start))
  }

  predicate RunsAfter(deed: Deed, running: bool) {
    match deed
    case Log(_, _) => running
    case Reopen(_) => true
    case Death => false
  }

  function Payload(deed: Deed): seq<Line> {
    if deed.Log? then [deed.payload] else []
  }

  /** The records of the first `n` deeds. */
  function Payloads(script: seq<Deed>, n: nat): seq<Line>
    requires n <= |script|
  {
    if n == 0 then []
    else Payloads(script, n - 1) + Payload(script[n - 1])
  }

  /** The elements whose mark is set. */
  function Marked<T>(s: seq<T>, marks: seq<bool>): seq<T>
    requires |s| == |marks|
  {
    if s == [] then [] else (if marks[0] then [s[0]] else []) + Marked(s[1..], marks[1..])
  }

  lemma {:induction false} MarkedSnoc<T>(s: seq<T>, marks: seq<bool>, x: T, mark: bool)
    requires |s| == |marks|
    ensures Marked(s + [x], marks + [mark]) == Marked(s, marks) + if mark then [x] else []
  {
    if s == [] {
      assert [x][1..] == [] && (s + [x]) == [x] && (marks + [mark]) == [mark];
    } else {
      assert (s + [x])[1..] == s[1..] + [x] && (marks + [mark])[1..] == marks[1..] + [mark];
      MarkedSnoc(s[1..], marks[1..], x, mark);
    }
  }
}

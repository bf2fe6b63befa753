/** Reviewing generated rows over any number of sessions and reviewers: scripts/pii_corpus/review.py. */
module Review {
  import opened Wrappers
  import Propagation

  type Span = Propagation.Span

  /** A JSON value of a field whose type is not fixed: a string, a whole number, or anything else. */
  datatype Field = Word(s: string) | Whole(n: int) | OtherJson(id: int)

  datatype Row = Row(id: string, text: string, spans: seq<Span>, teacher: Field, promptId: Field, seed: Field)

  /** A line of the generated file; in Junk the id, the text or a span is missing or of another type. */
  datatype Line = Good(row: Row) | Junk

  /** `is_negative`: the text of a value that is no string never ends this way. */
  predicate IsNegative(row: Row) {
    var suffix := ".negative";
    && row.promptId.Word? && |row.promptId.s| >= |suffix|
    && row.promptId.s[|row.promptId.s| - |suffix|..] == suffix
  }

  // ---- the spans of a row ----

  /** `_spans`, from the entries with their types checked. */
  method SpansOf(text: string, raw: seq<Span>) returns (r: Option<seq<Span>>)
    ensures r.Some? <==> Propagation.InText(text, raw) && Propagation.Disjoint(raw)
    ensures r.Some? ==> r.value == Propagation.SortSpans(raw) && multiset(r.value) == multiset(raw)
    ensures r.Some? ==> Propagation.Sorted(r.value) && Propagation.Disjoint(r.value)
  {
    hide Propagation.SortSpans, Propagation.Disjoint, Propagation.Sorted;
    for i := 0 to |raw|
      invariant forall j :: 0 <= j < i ==> 0 <= raw[j].start < raw[j].end <= |text|
    {
      if !(0 <= raw[i].start < raw[i].end <= |text|) {
        assert raw[i] in raw;
        return None;
      }
    }
    var spans := Propagation.SortSpans(raw);
    Propagation.SortSpansHolds(raw);
    SortIsPermutation(raw);
    var i := 1;
    while i < |spans|
      invariant 1 <= i && forall j :: 1 <= j < i && j < |spans| ==> spans[j - 1].end <= spans[j].start
    {
      if spans[i - 1].end > spans[i].start {
        NeighboursOverlap(text, spans, i);
        DisjointUnsorted(raw);
        return None;
      }
      i := i + 1;
    }
    NeighboursApart(spans, |spans|);
    DisjointUnsorted(raw);
    return Some(spans);
  }

  lemma NeighboursOverlap(text: string, spans: seq<Span>, i: nat)
    requires 1 <= i < |spans| && Propagation.Sorted(spans) && Propagation.InText(text, spans)
    requires spans[i - 1].end > spans[i].start
    ensures !Propagation.Disjoint(spans)
  {
    assert Propagation.Before(spans[i - 1], spans[i]);
    assert spans[i] in spans && spans[i - 1] in spans;
    assert !Propagation.Apart(spans[i - 1], spans[i]);
  }

  /** Sorted spans whose neighbours do not overlap are apart altogether. */
  lemma {:induction false} NeighboursApart(spans: seq<Span>, n: nat)
    requires n <= |spans| && forall s :: s in spans ==> s.start < s.end
    requires forall j :: 1 <= j < |spans| ==> spans[j - 1].end <= spans[j].start
    ensures forall i, j :: 0 <= i < j < n ==> spans[i].end <= spans[j].start
    ensures n == |spans| ==> Propagation.Disjoint(spans)
  {
    if n > 0 {
      NeighboursApart(spans, n - 1);
      forall i | 0 <= i < n - 1 ensures spans[i].end <= spans[n - 1].start {
        assert spans[n - 2] in spans;
      }
    }
  }

  lemma {:induction false} SortIsPermutation(spans: seq<Span>)
    ensures multiset(Propagation.SortSpans(spans)) == multiset(spans)
  {
    if spans != [] {
      SortIsPermutation(spans[1..]);
      InsertIsPermutation(spans[0], Propagation.SortSpans(spans[1..]));
      assert spans == [spans[0]] + spans[1..];
    }
  }

  lemma {:induction false} InsertIsPermutation(s: Span, sorted: seq<Span>)
    ensures multiset(Propagation.InsertSpan(s, sorted)) == multiset(sorted) + multiset{s}
  {
    if sorted != [] && !Propagation.Before(s, sorted[0]) {
      InsertIsPermutation(s, sorted[1..]);
      assert sorted == [sorted[0]] + sorted[1..];
    }
  }

  /** Whether spans are apart does not depend on their order. */
  lemma DisjointUnsorted(spans: seq<Span>)
    ensures Propagation.Disjoint(Propagation.SortSpans(spans)) <==> Propagation.Disjoint(spans)
  {
    if Propagation.Disjoint(spans) {
      Propagation.SortSpansHolds(spans);
    }
    if Propagation.Disjoint(Propagation.SortSpans(spans)) {
      DisjointBack(spans);
    }
  }

  lemma {:induction false} DisjointBack(spans: seq<Span>)
    requires Propagation.Disjoint(Propagation.SortSpans(spans))
    ensures Propagation.Disjoint(spans)
  {
    if spans != [] {
      var sorted := Propagation.SortSpans(spans[1..]);
      RemoveInserted(spans[0], sorted);
      DisjointBack(spans[1..]);
      forall i, j | 0 <= i < j < |spans| ensures Propagation.Apart(spans[i], spans[j]) {
        assert spans[j] == spans[1..][j - 1] && spans[j] in spans[1..];
        if i > 0 {
          assert spans[i] == spans[1..][i - 1];
        }
      }
    }
  }

  lemma {:induction false} RemoveInserted(s: Span, sorted: seq<Span>)
    requires Propagation.Disjoint(Propagation.InsertSpan(s, sorted))
    ensures Propagation.Disjoint(sorted) && forall x :: x in sorted ==> Propagation.Apart(s, x)
  {
    var all := Propagation.InsertSpan(s, sorted);
    if sorted == [] || Propagation.Before(s, sorted[0]) {
      assert all[1..] == sorted;
      assert forall i | 0 <= i < |sorted| :: sorted[i] == all[i + 1];
      forall i, j | 0 <= i < j < |sorted| ensures Propagation.Apart(sorted[i], sorted[j]) {
        assert Propagation.Apart(all[i + 1], all[j + 1]);
      }
      forall x | x in sorted ensures Propagation.Apart(s, x) {
        var i :| 0 <= i < |sorted| && sorted[i] == x;
        assert Propagation.Apart(all[0], all[i + 1]);
      }
    } else {
      var rest := Propagation.InsertSpan(s, sorted[1..]);
      assert all == [sorted[0]] + rest;
      forall i, j | 0 <= i < j < |rest| ensures Propagation.Apart(rest[i], rest[j]) {
        assert Propagation.Apart(all[i + 1], all[j + 1]);
      }
      RemoveInserted(s, sorted[1..]);
      forall x | x in rest ensures Propagation.Apart(sorted[0], x) {
        var i :| 0 <= i < |rest| && rest[i] == x;
        assert Propagation.Apart(all[0], all[i + 1]);
      }
      assert s in rest;
      forall i, j | 0 <= i < j < |sorted| ensures Propagation.Apart(sorted[i], sorted[j]) {
        if i == 0 {
          assert sorted[j] == sorted[1..][j - 1] && sorted[j] in rest;
        } else {
          assert sorted[i] == sorted[1..][i - 1] && sorted[j] == sorted[1..][j - 1];
        }
      }
    }
  }

  // ---- one row, one reviewer ----

  /** What the reviewer does at a prompt; an edit saves a text, or fails. */
  datatype Key = Accept | Reject | Skip | Quit | Edit(saved: Option<string>) | Unknown

  datatype Decision = Accepted | Edited | Rejected | Skipped | Left

  /** `ground` of an edit: its text and whether the row is a hard negative, to the row's new text and
      spans. */
  type Ground = (string, bool) -> Option<(string, seq<Span>)>

  datatype Decided = Decided(decision: Decision, text: string, spans: seq<Span>, rest: seq<Key>)

  /** What `_decide` answers, and the keys it leaves; with no key left the input has ended. */
  function Decide(ground: Ground, negative: bool, text: string, spans: seq<Span>, edited: bool, keys: seq<Key>): Decided
    decreases |keys|
  {
    if keys == [] then Decided(Left, text, spans, [])
    else
      match keys[0]
      case Accept => Decided(if edited then Edited else Accepted, text, spans, keys[1..])
      case Reject => Decided(Rejected, text, spans, keys[1..])
      case Skip => Decided(Skipped, text, spans, keys[1..])
      case Quit => Decided(Left, text, spans, keys[1..])
      case Unknown => Decide(ground, negative, text, spans, edited, keys[1..])
      case Edit(saved) =>
        if saved.None? || ground(saved.value, negative).None?
          then Decide(ground, negative, text, spans, edited, keys[1..])
        else
          var (text', spans') := ground(saved.value, negative).value;
          Decide(ground, negative, text', spans', true, keys[1..])
  }

  /** `_decide` */
  method DecideRow(ground: Ground, row: Row, spans0: seq<Span>, keys0: seq<Key>) returns (r: Decided)
    ensures r == Decide(ground, IsNegative(row), row.text, spans0, false, keys0)
  {
    var text, spans, edited, keys := row.text, spans0, false, keys0;
    while keys != []
      invariant Decide(ground, IsNegative(row), row.text, spans0, false, keys0)
        == Decide(ground, IsNegative(row), text, spans, edited, keys)
      decreases |keys|
    {
      var key := keys[0];
      keys := keys[1..];
      match key {
        case Accept => return Decided(if edited then Edited else Accepted, text, spans, keys);
        case Reject => return Decided(Rejected, text, spans, keys);
        case Skip => return Decided(Skipped, text, spans, keys);
        case Quit => return Decided(Left, text, spans, keys);
        case Unknown =>
        case Edit(saved) =>
          if saved.Some? {
            var found := ground(saved.value, IsNegative(row));
            if found.Some? {
              text, spans, edited := found.value.0, found.value.1, true;
            }
          }
      }
    }
    return Decided(Left, text, spans, []);
  }

  // ---- the output files ----

  /** A verified row, with its review record. */
  datatype Record = Record(row: Row, reviewer: string, decision: Decision, guideline: int)

  const GUIDELINE_VERSION := 1

  /** The verified file and the file of rejected ids beside it. */
  datatype Files = Files(verified: seq<Record>, rejected: seq<string>)

  /** `_decided` */
  function DecidedIds(files: Files): set<string> {
    (set r | r in files.verified :: r.row.id) + (set id | id in files.rejected)
  }

  /** `_record` */
  function Recorded(files: Files, row: Row, decided: Decided, reviewer: string): Files {
    match decided.decision
    case Rejected => files.(rejected := files.rejected + [row.id])
    case Accepted => files.(verified := files.verified + [RecordOf(row, decided, reviewer)])
    case Edited => files.(verified := files.verified + [RecordOf(row, decided, reviewer)])
    case _ => files
  }

  function RecordOf(row: Row, decided: Decided, reviewer: string): Record {
    Record(row.(text := decided.text, spans := decided.spans), reviewer, decided.decision, GUIDELINE_VERSION)
  }

  /** Share k of n. */
  datatype Share = Share(k: nat, n: nat)

  /** `in_share`; hash stands for the SHA-256 of an id, read as a number. */
  predicate InShare(hash: string -> nat, id: string, share: Option<Share>) {
    share.None? || (share.value.n > 0 && hash(id) % share.value.n == share.value.k - 1)
  }

  datatype Session = Session(reviewer: string, share: Option<Share>, keys: seq<Key>)

  /** `_identified` */
  predicate Identified(row: Row) {
    && row.id != "" && row.teacher.Word? && row.teacher.s != "" && row.promptId.Word? && row.promptId.s != ""
    && row.seed.Whole?
  }

  /** The row has an id, its provenance and spans that can be shown. */
  predicate Reviewable(line: Line) {
    && line.Good?
    && Identified(line.row)
    && Propagation.InText(line.row.text, line.row.spans) && Propagation.Disjoint(line.row.spans)
  }

  /** The files after the rest of a session; done are the ids decided before it. */
  function Reviewed(hash: string -> nat, ground: Ground, lines: seq<Line>, files: Files, done: set<string>,
                    session: Session): Files
    decreases |lines|
  {
    if lines == [] then files
    else
      var line := lines[0];
      if !Reviewable(line) || !InShare(hash, line.row.id, session.share) || line.row.id in done
      then Reviewed(hash, ground, lines[1..], files, done, session)
      else
        var decided := Decide(ground, IsNegative(line.row), line.row.text, Propagation.SortSpans(line.row.spans), false,
                              session.keys);
        if decided.decision == Left then files
        else
          Reviewed(hash, ground, lines[1..], Recorded(files, line.row, decided, session.reviewer), done,
                   session.(keys := decided.rest))
  }

  /** The two files of one reviewer. */
  class Output {
    var files: Files

    constructor ()
      ensures files == Files([], [])
    {
      files := Files([], []);
    }

    /** `review_file` */
    method ReviewFile(hash: string -> nat, ground: Ground, lines: seq<Line>, session: Session)
      modifies this
      ensures files == Reviewed(hash, ground, lines, old(files), DecidedIds(old(files)), session)
    {
      hide Decide, Recorded, InShare, IsNegative, Identified, Propagation.SortSpans, Propagation.InText,
           Propagation.Disjoint;
      var done, keys := DecidedIds(files), session.keys;
      for i := 0 to |lines|
        invariant Reviewed(hash, ground, lines, old(files), done, session)
          == Reviewed(hash, ground, lines[i..], files, done, session.(keys := keys))
      {
        var line := lines[i];
        assert lines[i..][0] == line && lines[i..][1..] == lines[i + 1..];
        if line.Junk? {
          continue;
        }
        var row := line.row;
        var spans := SpansOf(row.text, row.spans);
        if spans.None? || !Identified(row) {
          continue;
        }
        if !InShare(hash, row.id, session.share) {
          continue;
        }
        if row.id in done {
          continue;
        }
        var decided := DecideRow(ground, row, spans.value, keys);
        if decided.decision == Left {
          return;
        }
        files := Recorded(files, row, decided, session.reviewer);
        keys := decided.rest;
      }
      assert lines[|lines|..] == [];
    }
  }

  /** The files after several sessions of one reviewer. */
  function Sessions(hash: string -> nat, ground: Ground, lines: seq<Line>, files: Files, sessions: seq<Session>): Files
    decreases |sessions|
  {
    if sessions == [] then files
    else
      Sessions(hash, ground, lines, Reviewed(hash, ground, lines, files, DecidedIds(files), sessions[0]), sessions[1..])
  }

  // ---- one decision for each id ----

  function VerifiedIds(records: seq<Record>): seq<string> {
    seq(|records|, i requires 0 <= i < |records| => records[i].row.id)
  }

  /** Every id a decision is recorded for, as often as it is. */
  function RecordedIds(files: Files): multiset<string> {
    multiset(VerifiedIds(files.verified)) + multiset(files.rejected)
  }

  /** The ids of the rows that can be reviewed, in order. */
  function LineIds(lines: seq<Line>): seq<string> {
    if lines == [] then []
    else (if Reviewable(lines[0]) then [lines[0].row.id] else []) + LineIds(lines[1..])
  }

  predicate Distinct(ids: seq<string>) {
    forall i, j :: 0 <= i < j < |ids| ==> ids[i] != ids[j]
  }

  predicate OneEach(ids: multiset<string>) {
    forall id :: id in ids ==> ids[id] == 1
  }

  lemma IdsOfRecorded(files: Files, row: Row, decided: Decided, reviewer: string)
    ensures RecordedIds(Recorded(files, row, decided, reviewer))
      == if decided.decision in {Accepted, Edited, Rejected} then RecordedIds(files) + multiset{row.id}
         else RecordedIds(files)
    ensures files.verified <= Recorded(files, row, decided, reviewer).verified
    ensures files.rejected <= Recorded(files, row, decided, reviewer).rejected
  {
    hide VerifiedIds;
    VerifiedIdsMore(files.verified, RecordOf(row, decided, reviewer));
    assert multiset(files.rejected + [row.id]) == multiset(files.rejected) + multiset{row.id};
  }

  lemma VerifiedIdsMore(records: seq<Record>, r: Record)
    ensures multiset(VerifiedIds(records + [r])) == multiset(VerifiedIds(records)) + multiset{r.row.id}
  {
    assert VerifiedIds(records + [r]) == VerifiedIds(records) + [r.row.id];
  }

  lemma DecidedAre(files: Files)
    ensures forall id :: id in DecidedIds(files) <==> id in RecordedIds(files)
  {
    forall id ensures id in DecidedIds(files) <==> id in RecordedIds(files) {
      if id in multiset(VerifiedIds(files.verified)) {
        var i :| 0 <= i < |files.verified| && VerifiedIds(files.verified)[i] == id;
        assert files.verified[i] in files.verified;
      }
      if r :| r in files.verified && r.row.id == id {
        var i :| 0 <= i < |files.verified| && files.verified[i] == r;
        assert VerifiedIds(files.verified)[i] == id;
      }
    }
  }

  lemma ReviewedNext(hash: string -> nat, ground: Ground, lines: seq<Line>, files: Files, done: set<string>,
                     session: Session)
    returns (stop: bool, files': Files, session': Session)
    requires lines != []
    ensures Reviewed(hash, ground, lines, files, done, session)
      == if stop then files else Reviewed(hash, ground, lines[1..], files', done, session')
    ensures session'.share == session.share && session'.reviewer == session.reviewer
    ensures files' == files || (Reviewable(lines[0]) && InShare(hash, lines[0].row.id, session.share)
                                && lines[0].row.id !in done
                                && RecordedIds(files') == RecordedIds(files) + multiset{lines[0].row.id})
    ensures files.verified <= files'.verified && files.rejected <= files'.rejected
  {
    hide InShare, Decide, Recorded, RecordedIds, IsNegative, Propagation.SortSpans, Propagation.InText,
         Propagation.Disjoint;
    var line := lines[0];
    stop, files', session' := false, files, session;
    if Reviewable(line) && InShare(hash, line.row.id, session.share) && line.row.id !in done {
      var decided := Decide(ground, IsNegative(line.row), line.row.text, Propagation.SortSpans(line.row.spans), false,
                            session.keys);
      IdsOfRecorded(files, line.row, decided, session.reviewer);
      stop := decided.decision == Left;
      files' := Recorded(files, line.row, decided, session.reviewer);
      session' := session.(keys := decided.rest);
      NotRecorded(files, line.row, decided, session.reviewer);
    }
  }

  lemma NotRecorded(files: Files, row: Row, decided: Decided, reviewer: string)
    ensures decided.decision !in {Accepted, Edited, Rejected} ==> Recorded(files, row, decided, reviewer) == files
  {
  }

  /** A session adds each id at most once, and only ids of its rows, in its share, undecided before
      it; what was written before stays. */
  lemma {:induction false} SessionHolds(hash: string -> nat, ground: Ground, lines: seq<Line>, files: Files,
                                        done: set<string>, session: Session)
    requires Distinct(LineIds(lines)) && OneEach(RecordedIds(files))
    requires forall id :: id in RecordedIds(files) && id in LineIds(lines) ==> id in done
    ensures var r := Reviewed(hash, ground, lines, files, done, session);
      && OneEach(RecordedIds(r)) && files.verified <= r.verified && files.rejected <= r.rejected
      && forall id :: id in RecordedIds(r) ==>
           id in RecordedIds(files) || (id in LineIds(lines) && id !in done && InShare(hash, id, session.share))
    decreases |lines|
  {
    hide Reviewed, Reviewable, InShare, RecordedIds;
    if lines == [] {
      ReviewedNothing(hash, ground, lines, files, done, session);
    } else {
      var stop, files', session' := ReviewedNext(hash, ground, lines, files, done, session);
      LineIdsAre(lines);
      if !stop {
        SessionHolds(hash, ground, lines[1..], files', done, session');
      }
    }
  }

  lemma ReviewedNothing(hash: string -> nat, ground: Ground, lines: seq<Line>, files: Files, done: set<string>,
                        session: Session)
    requires lines == []
    ensures Reviewed(hash, ground, lines, files, done, session) == files
  {
  }

  lemma LineIdsAre(lines: seq<Line>)
    requires lines != []
    ensures Distinct(LineIds(lines)) ==> Distinct(LineIds(lines[1..]))
    ensures Distinct(LineIds(lines)) && Reviewable(lines[0]) ==> lines[0].row.id !in LineIds(lines[1..])
    ensures Reviewable(lines[0]) ==> lines[0].row.id in LineIds(lines)
    ensures forall id :: id in LineIds(lines[1..]) ==> id in LineIds(lines)
  {
    hide Distinct, Propagation.InText, Propagation.Disjoint;
    var rest := LineIds(lines[1..]);
    if Reviewable(lines[0]) {
      DistinctCons(lines[0].row.id, rest);
    } else {
      assert LineIds(lines) == rest;
    }
  }

  lemma DistinctCons(id: string, rest: seq<string>)
    ensures Distinct([id] + rest) <==> id !in rest && Distinct(rest)
  {
    var all := [id] + rest;
    assert forall i | 0 <= i < |rest| :: rest[i] == all[i + 1];
    if id in rest {
      var i :| 0 <= i < |rest| && rest[i] == id;
      assert all[0] == all[i + 1];
    }
    if Distinct(all) {
      forall i, j | 0 <= i < j < |rest| ensures rest[i] != rest[j] {
        assert all[i + 1] != all[j + 1];
      }
    }
  }

  /** Over any number of sessions, with quits and skips, each id gets at most one decision; only rows
      of the generated file get one; and no decision is lost or changed. */
  lemma {:induction false} OneDecisionEach(hash: string -> nat, ground: Ground, lines: seq<Line>, files: Files,
                                           sessions: seq<Session>)
    requires Distinct(LineIds(lines)) && OneEach(RecordedIds(files))
    ensures var r := Sessions(hash, ground, lines, files, sessions);
      && OneEach(RecordedIds(r)) && files.verified <= r.verified && files.rejected <= r.rejected
      && forall id :: id in RecordedIds(r) ==>
           || id in RecordedIds(files)
           || (id in LineIds(lines) && exists s :: s in sessions && InShare(hash, id, s.share))
    decreases |sessions|
  {
    hide Reviewed, InShare, RecordedIds, DecidedIds, LineIds, Distinct, OneEach;
    if sessions != [] {
      DecidedAre(files);
      SessionHolds(hash, ground, lines, files, DecidedIds(files), sessions[0]);
      var next := Reviewed(hash, ground, lines, files, DecidedIds(files), sessions[0]);
      OneDecisionEach(hash, ground, lines, next, sessions[1..]);
      var r := Sessions(hash, ground, lines, files, sessions);
      forall id | id in RecordedIds(r)
        ensures id in RecordedIds(files)
          || (id in LineIds(lines) && exists s :: s in sessions && InShare(hash, id, s.share))
      {
        if id !in RecordedIds(next) {
          var s :| s in sessions[1..] && InShare(hash, id, s.share);
          assert s in sessions;
        } else if id !in RecordedIds(files) {
          assert sessions[0] in sessions;
        }
      }
    }
  }

  // ---- without distinct ids ----

  function Accepts(n: nat): (r: seq<Key>)
    ensures |r| == n && forall i :: 0 <= i < n ==> r[i] == Accept
  {
    seq(n, i => Accept)
  }

  /** Accepting every row of a file nothing of which is decided records every row's id. */
  lemma {:induction false} AcceptAll(hash: string -> nat, ground: Ground, lines: seq<Line>, files: Files,
                                     reviewer: string, keys: seq<Key>)
    requires |keys| >= |lines| && forall i :: 0 <= i < |keys| ==> keys[i] == Accept
    ensures RecordedIds(Reviewed(hash, ground, lines, files, {}, Session(reviewer, None, keys)))
      == RecordedIds(files) + multiset(LineIds(lines))
    decreases |lines|
  {
    hide RecordedIds, IsNegative, Propagation.SortSpans, Propagation.InText, Propagation.Disjoint;
    if lines != [] {
      var line := lines[0];
      if Reviewable(line) {
        var spans := Propagation.SortSpans(line.row.spans);
        var decided := Decided(Accepted, line.row.text, spans, keys[1..]);
        assert Decide(ground, IsNegative(line.row), line.row.text, spans, false, keys) == decided;
        IdsOfRecorded(files, line.row, decided, reviewer);
        AcceptAll(hash, ground, lines[1..], Recorded(files, line.row, decided, reviewer), reviewer, keys[1..]);
        assert multiset(LineIds(lines)) == multiset{line.row.id} + multiset(LineIds(lines[1..]));
      } else {
        AcceptAll(hash, ground, lines[1..], files, reviewer, keys);
        assert LineIds(lines) == LineIds(lines[1..]);
      }
    }
  }

  lemma Repeated(ids: seq<string>)
    requires !Distinct(ids)
    ensures !OneEach(multiset(ids))
  {
    var i, j :| 0 <= i < j < |ids| && ids[i] == ids[j];
    var id := ids[i];
    assert ids == ids[..j] + ids[j..];
    assert ids[..j][i] == id && ids[j..][0] == id;
    assert multiset(ids[..j])[id] >= 1 && multiset(ids[j..])[id] >= 1;
    assert multiset(ids) == multiset(ids[..j]) + multiset(ids[j..]);
    assert multiset(ids)[id] >= 2 && id in multiset(ids);
  }

  lemma OneEachOfNone()
    ensures OneEach(RecordedIds(Files([], [])))
  {
    assert VerifiedIds([]) == [];
  }

  /** A session that decides two rows of one id. */
  lemma RepeatedDecision(hash: string -> nat, ground: Ground, lines: seq<Line>) returns (sessions: seq<Session>)
    requires !Distinct(LineIds(lines))
    ensures !OneEach(RecordedIds(Sessions(hash, ground, lines, Files([], []), sessions)))
  {
    hide *;
    var session := Session("r", None, Accepts(|lines|));
    sessions := [session];
    AcceptAll(hash, ground, lines, Files([], []), "r", Accepts(|lines|));
    Repeated(LineIds(lines));
    NothingDecided();
    OneSession(hash, ground, lines, Files([], []), session);
    var ids := multiset(LineIds(lines));
    assert multiset{} + ids == ids;
  }

  lemma OneSession(hash: string -> nat, ground: Ground, lines: seq<Line>, files: Files, session: Session)
    ensures Sessions(hash, ground, lines, files, [session])
      == Reviewed(hash, ground, lines, files, DecidedIds(files), session)
  {
    hide Reviewed, DecidedIds;
    var r := Reviewed(hash, ground, lines, files, DecidedIds(files), session);
    assert [session][1..] == [];
    assert Sessions(hash, ground, lines, r, []) == r;
  }

  /** Every id gets at most one decision whatever the reviewers do, exactly when no two rows that can
      be reviewed share an id: within one session the code does not look for its own decisions. */
  lemma OneDecisionExactlyWhenDistinct(hash: string -> nat, ground: Ground, lines: seq<Line>)
    ensures Distinct(LineIds(lines))
      <==> forall sessions :: OneEach(RecordedIds(Sessions(hash, ground, lines, Files([], []), sessions)))
  {
    hide *;
    if Distinct(LineIds(lines)) {
      OneEachOfNone();
      forall sessions ensures OneEach(RecordedIds(Sessions(hash, ground, lines, Files([], []), sessions))) {
        OneDecisionEach(hash, ground, lines, Files([], []), sessions);
      }
    } else {
      var sessions := RepeatedDecision(hash, ground, lines);
    }
  }

  lemma NothingDecided()
    ensures DecidedIds(Files([], [])) == {} && RecordedIds(Files([], [])) == multiset{}
  {
    assert VerifiedIds([]) == [];
  }

  // ---- shares ----

  /** Each id is in exactly one of the shares 1 to n. */
  lemma SharesPartition(hash: string -> nat, id: string, n: nat)
    requires n > 0
    ensures exists k :: 1 <= k <= n && InShare(hash, id, Some(Share(k, n)))
    ensures forall j, k :: InShare(hash, id, Some(Share(j, n))) && InShare(hash, id, Some(Share(k, n))) ==> j == k
  {
    var k := hash(id) % n + 1;
    assert InShare(hash, id, Some(Share(k, n)));
  }

  /** The outputs of n reviewers, the k-th of whom reviews share k in any number of sessions. */
  ghost predicate SharedOut(hash: string -> nat, ground: Ground, lines: seq<Line>, outputs: seq<Files>,
                            runs: seq<seq<Session>>)
  {
    && |outputs| == |runs|
    && (forall k :: 0 <= k < |runs| ==> outputs[k] == Sessions(hash, ground, lines, Files([], []), runs[k]))
    && forall k, s :: 0 <= k < |runs| && s in runs[k] ==> s.share == Some(Share(k + 1, |runs|))
  }

  /** No id is decided in the outputs of two shares. */
  lemma SharesDoNotMeet(hash: string -> nat, ground: Ground, lines: seq<Line>, outputs: seq<Files>,
                        runs: seq<seq<Session>>, j: nat, k: nat, id: string)
    requires Distinct(LineIds(lines)) && SharedOut(hash, ground, lines, outputs, runs)
    requires j < |runs| && k < |runs|
    requires id in RecordedIds(outputs[j]) && id in RecordedIds(outputs[k])
    ensures j == k
  {
    hide Sessions, RecordedIds, InShare, LineIds, Distinct, OneEach;
    NothingDecided();
    OneEachOfNone();
    OneDecisionEach(hash, ground, lines, Files([], []), runs[j]);
    OneDecisionEach(hash, ground, lines, Files([], []), runs[k]);
    SharesPartition(hash, id, |runs|);
    assert InShare(hash, id, Some(Share(j + 1, |runs|)));
    assert InShare(hash, id, Some(Share(k + 1, |runs|)));
  }

  // ---- what a session writes ----

  /** The rows a session asks about and what is decided on each, up to the row it is left at. */
  function Asked(hash: string -> nat, ground: Ground, lines: seq<Line>, done: set<string>,
                 session: Session): seq<(Row, Decided)>
    decreases |lines|
  {
    if lines == [] then []
    else if !Reviewable(lines[0]) || !InShare(hash, lines[0].row.id, session.share) || lines[0].row.id in done
    then Asked(hash, ground, lines[1..], done, session)
    else
      var row := lines[0].row;
      var decided := Decide(ground, IsNegative(row), row.text, Propagation.SortSpans(row.spans), false, session.keys);
      if decided.decision == Left then []
      else [(row, decided)] + Asked(hash, ground, lines[1..], done, session.(keys := decided.rest))
  }

  /** The records of the rows accepted or edited, in order. */
  function Kept(asked: seq<(Row, Decided)>, reviewer: string): seq<Record> {
    if asked == [] then []
    else
      (if asked[0].1.decision in {Accepted, Edited} then [RecordOf(asked[0].0, asked[0].1, reviewer)] else [])
      + Kept(asked[1..], reviewer)
  }

  /** The ids of the rows rejected, in order. */
  function Refused(asked: seq<(Row, Decided)>): seq<string> {
    if asked == [] then []
    else (if asked[0].1.decision == Rejected then [asked[0].0.id] else []) + Refused(asked[1..])
  }

  /** A session appends the rows accepted or edited, as decided, to one file and the ids rejected to
      the other, in the order asked, and nothing for a skipped row. */
  lemma {:induction false} SessionAppends(hash: string -> nat, ground: Ground, lines: seq<Line>, files: Files,
                                          done: set<string>, session: Session)
    ensures var asked := Asked(hash, ground, lines, done, session);
      Reviewed(hash, ground, lines, files, done, session)
      == Files(files.verified + Kept(asked, session.reviewer), files.rejected + Refused(asked))
    decreases |lines|
  {
    hide Decide, InShare, IsNegative, RecordOf, Propagation.SortSpans, Propagation.InText, Propagation.Disjoint;
    if lines != [] && Reviewable(lines[0]) && InShare(hash, lines[0].row.id, session.share)
      && lines[0].row.id !in done {
      var row := lines[0].row;
      var decided := Decide(ground, IsNegative(row), row.text, Propagation.SortSpans(row.spans), false, session.keys);
      if decided.decision != Left {
        var next := session.(keys := decided.rest);
        SessionAppends(hash, ground, lines[1..], Recorded(files, row, decided, session.reviewer), done, next);
        var asked := Asked(hash, ground, lines[1..], done, next);
        assert ([(row, decided)] + asked)[1..] == asked;
        RecordedAppends(files, row, decided, session.reviewer, Kept(asked, session.reviewer), Refused(asked));
      }
    } else if lines != [] {
      SessionAppends(hash, ground, lines[1..], files, done, session);
    }
  }

  lemma RecordedAppends(files: Files, row: Row, decided: Decided, reviewer: string, kept: seq<Record>,
                        refused: seq<string>)
    requires decided.decision != Left
    ensures var r := Recorded(files, row, decided, reviewer);
      && r.verified + kept
         == files.verified
            + ((if decided.decision in {Accepted, Edited} then [RecordOf(row, decided, reviewer)] else []) + kept)
      && r.rejected + refused
         == files.rejected + ((if decided.decision == Rejected then [row.id] else []) + refused)
  {
    hide RecordOf;
  }
}

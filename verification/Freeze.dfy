/** Freezing the rows several reviews verified: `row_problem` and `freeze` of
    scripts/pii_corpus/review.py. */
module Freeze {
  import opened Wrappers
  import Propagation
  import opened Review
  import opened StringOrder

  /** A line of a verified file. Unreadable has a key missing, or an id, a text, a span or a review
      record of another form; the other fields may hold anything. */
  datatype VerifiedLine = Verified(record: Record) | Unreadable

  /** `row_problem`; known are the placeholder types. */
  predicate HasProblem(known: set<string>, line: VerifiedLine) {
    || line.Unreadable?
    || line.record.row.id == ""
    || !Propagation.InText(line.record.row.text, line.record.row.spans)
    || !Propagation.Disjoint(line.record.row.spans)
    || (exists s :: s in line.record.row.spans && s.kind !in known)
    || (line.record.row.spans != [] && IsNegative(line.record.row))
    || line.record.reviewer == ""
    || line.record.decision !in {Accepted, Edited}
    || line.record.guideline != GUIDELINE_VERSION
  }

  /** All lines of the files, in order. */
  function Flat(files: seq<seq<VerifiedLine>>): seq<VerifiedLine> {
    if files == [] then [] else files[0] + Flat(files[1..])
  }

  function RecordsOf(lines: seq<VerifiedLine>): seq<Record> {
    if lines == [] then []
    else RecordsOf(lines[..|lines| - 1]) + (if lines[|lines| - 1].Verified? then [lines[|lines| - 1].record] else [])
  }

  // ---- the order of ids ----

  function SortIds(ids: seq<string>): (r: seq<string>)
    ensures |r| == |ids|
  {
    if ids == [] then [] else InsertId(ids[|ids| - 1], SortIds(ids[..|ids| - 1]))
  }

  function InsertId(id: string, sorted: seq<string>): (r: seq<string>)
    ensures |r| == |sorted| + 1
  {
    if sorted == [] || AtMost(id, sorted[0]) then [id] + sorted else [sorted[0]] + InsertId(id, sorted[1..])
  }

  /** Records in the order of their ids. */
  function ById(records: seq<Record>): (r: seq<Record>)
    ensures |r| == |records|
  {
    if records == [] then [] else InsertById(records[|records| - 1], ById(records[..|records| - 1]))
  }

  function InsertById(record: Record, sorted: seq<Record>): (r: seq<Record>)
    ensures |r| == |sorted| + 1
  {
    if sorted == [] || AtMost(record.row.id, sorted[0].row.id) then [record] + sorted
    else [sorted[0]] + InsertById(record, sorted[1..])
  }

  predicate Ascending(records: seq<Record>) {
    forall i, j :: 0 <= i < j < |records| ==> AtMost(records[i].row.id, records[j].row.id)
  }

  lemma {:induction false} InsertByIdKeeps(record: Record, sorted: seq<Record>)
    ensures multiset(InsertById(record, sorted)) == multiset(sorted) + multiset{record}
    ensures forall r :: r in InsertById(record, sorted) ==> r == record || r in sorted
  {
    hide AtMost;
    if sorted != [] && !AtMost(record.row.id, sorted[0].row.id) {
      InsertByIdKeeps(record, sorted[1..]);
      assert sorted == [sorted[0]] + sorted[1..];
    }
  }

  lemma AscendingCons(first: Record, rest: seq<Record>)
    requires Ascending(rest) && forall r :: r in rest ==> AtMost(first.row.id, r.row.id)
    ensures Ascending([first] + rest)
  {
    hide AtMost;
  }

  lemma AscendingRest(sorted: seq<Record>)
    requires Ascending(sorted) && sorted != []
    ensures Ascending(sorted[1..]) && forall r :: r in sorted[1..] ==> AtMost(sorted[0].row.id, r.row.id)
  {
    hide AtMost;
  }

  lemma {:induction false} InsertByIdHolds(record: Record, sorted: seq<Record>)
    requires Ascending(sorted)
    ensures Ascending(InsertById(record, sorted))
  {
    hide AtMost, Ascending;
    if sorted == [] {
      NoneAscending();
      AscendingCons(record, []);
    } else {
      AscendingRest(sorted);
      var first, rest := sorted[0], sorted[1..];
      assert sorted == [first] + rest;
      if AtMost(record.row.id, first.row.id) {
        forall r | r in sorted ensures AtMost(record.row.id, r.row.id) {
          if r != first {
            AtMostIsTransitive(record.row.id, first.row.id, r.row.id);
          }
        }
        AscendingCons(record, sorted);
      } else {
        AtMostIsTotal(record.row.id, first.row.id);
        InsertByIdHolds(record, rest);
        InsertByIdKeeps(record, rest);
        AscendingCons(first, InsertById(record, rest));
      }
    }
  }

  lemma NoneAscending()
    ensures Ascending([])
  {
  }

  lemma {:induction false} ByIdHolds(records: seq<Record>)
    ensures Ascending(ById(records)) && multiset(ById(records)) == multiset(records)
  {
    if records != [] {
      var before, last := records[..|records| - 1], records[|records| - 1];
      assert records == before + [last];
      ByIdHolds(before);
      InsertByIdHolds(last, ById(before));
      InsertByIdKeeps(last, ById(before));
    }
  }

  lemma {:induction false} InsertIdIs(record: Record, sorted: seq<Record>)
    ensures InsertId(record.row.id, VerifiedIds(sorted)) == VerifiedIds(InsertById(record, sorted))
  {
    hide AtMost;
    if sorted != [] {
      assert VerifiedIds(sorted)[1..] == VerifiedIds(sorted[1..]);
      InsertIdIs(record, sorted[1..]);
    }
  }

  /** Sorting the ids gives the ids of the sorted records. */
  lemma {:induction false} SortIdsIs(records: seq<Record>)
    ensures SortIds(VerifiedIds(records)) == VerifiedIds(ById(records))
  {
    if records != [] {
      var before, last := records[..|records| - 1], records[|records| - 1];
      assert VerifiedIds(records)[..|records| - 1] == VerifiedIds(before);
      SortIdsIs(before);
      InsertIdIs(last, ById(before));
    }
  }

  // ---- freezing ----

  predicate Clear(known: set<string>, lines: seq<VerifiedLine>) {
    (forall l :: l in lines ==> !HasProblem(known, l)) && Distinct(VerifiedIds(RecordsOf(lines)))
  }

  /** The rows read so far: the dictionary, and its keys in the order they were added. */
  ghost predicate Read(lines: seq<VerifiedLine>, rows: map<string, Record>, order: seq<string>) {
    && order == VerifiedIds(RecordsOf(lines))
    && (forall id :: id in rows <==> id in order)
    && forall r :: r in RecordsOf(lines) ==> r.row.id in rows && rows[r.row.id] == r
  }

  lemma RecordsMore(lines: seq<VerifiedLine>, record: Record)
    ensures RecordsOf(lines + [Verified(record)]) == RecordsOf(lines) + [record]
    ensures VerifiedIds(RecordsOf(lines) + [record]) == VerifiedIds(RecordsOf(lines)) + [record.row.id]
  {
    assert (lines + [Verified(record)])[..|lines|] == lines;
  }

  lemma DistinctMore(ids: seq<string>, id: string)
    ensures Distinct(ids + [id]) <==> Distinct(ids) && id !in ids
  {
    var all := ids + [id];
    if id in ids {
      var i :| 0 <= i < |ids| && ids[i] == id;
      assert all[i] == all[|ids|];
    }
    if Distinct(all) {
      forall i, j | 0 <= i < j < |ids| ensures ids[i] != ids[j] {
        assert all[i] != all[j];
      }
    }
  }

  lemma ReadMore(known: set<string>, lines: seq<VerifiedLine>, rows: map<string, Record>, order: seq<string>,
                 record: Record)
    requires Read(lines, rows, order) && Clear(known, lines) && !HasProblem(known, Verified(record))
    ensures record.row.id !in rows ==>
      Read(lines + [Verified(record)], rows[record.row.id := record], order + [record.row.id])
      && Clear(known, lines + [Verified(record)])
    ensures record.row.id in rows ==> !Clear(known, lines + [Verified(record)])
  {
    hide HasProblem, RecordsOf, VerifiedIds, Distinct;
    RecordsMore(lines, record);
    DistinctMore(order, record.row.id);
    if record.row.id !in rows {
      RowsMore(lines, rows, order, record);
    }
  }

  lemma RowsMore(lines: seq<VerifiedLine>, rows: map<string, Record>, order: seq<string>, record: Record)
    requires Read(lines, rows, order) && record.row.id !in rows
    ensures Read(lines + [Verified(record)], rows[record.row.id := record], order + [record.row.id])
  {
    hide RecordsOf, VerifiedIds;
    RecordsMore(lines, record);
    assert forall r :: r in RecordsOf(lines) + [record] <==> r in RecordsOf(lines) || r == record;
  }

  /** A problem or a repeated id stays one whatever follows. */
  lemma {:induction false} StaysUnclear(known: set<string>, lines: seq<VerifiedLine>, more: seq<VerifiedLine>)
    requires !Clear(known, lines)
    ensures !Clear(known, lines + more)
    decreases |more|
  {
    hide HasProblem;
    if more == [] {
      assert lines + more == lines;
    } else {
      var last := |more| - 1;
      StaysUnclear(known, lines, more[..last]);
      var before := lines + more[..last];
      assert lines + more == before + [more[last]];
      OneMoreUnclear(known, before, more[last]);
    }
  }

  lemma OneMoreUnclear(known: set<string>, lines: seq<VerifiedLine>, line: VerifiedLine)
    requires !Clear(known, lines)
    ensures !Clear(known, lines + [line])
  {
    hide HasProblem;
    var next := lines + [line];
    assert next[..|lines|] == lines;
    if l :| l in lines && HasProblem(known, l) {
      assert l in next;
    } else {
      var ids, ids' := VerifiedIds(RecordsOf(lines)), VerifiedIds(RecordsOf(next));
      assert ids <= ids';
      var i, j :| 0 <= i < j < |ids| && ids[i] == ids[j];
      assert ids'[i] == ids'[j];
    }
  }

  lemma {:induction false} FlatOfSum(a: seq<seq<VerifiedLine>>, b: seq<seq<VerifiedLine>>)
    ensures Flat(a + b) == Flat(a) + Flat(b)
  {
    if a == [] {
      assert a + b == b;
    } else {
      assert (a + b)[1..] == a[1..] + b;
      FlatOfSum(a[1..], b);
      Regroup(a[0], Flat(a[1..]), Flat(b));
    }
  }

  lemma Regroup(a: seq<VerifiedLine>, b: seq<VerifiedLine>, c: seq<VerifiedLine>)
    ensures a + (b + c) == a + b + c
  {
  }

  lemma FlatOfOne(lines: seq<VerifiedLine>)
    ensures Flat([lines]) == lines
  {
    assert [lines][1..] == [];
    assert lines + [] == lines;
  }

  lemma FlatSum(files: seq<seq<VerifiedLine>>, i: nat)
    requires i < |files|
    ensures Flat(files[..i + 1]) == Flat(files[..i]) + files[i]
    ensures Flat(files) == Flat(files[..i + 1]) + Flat(files[i + 1..])
  {
    hide *;
    FlatTaken(files, i);
    FlatOfTwo(files, files[..i + 1], files[i + 1..]);
  }

  lemma FlatTaken(files: seq<seq<VerifiedLine>>, i: nat)
    requires i < |files|
    ensures Flat(files[..i + 1]) == Flat(files[..i]) + files[i]
  {
    hide *;
    var a, x := files[..i], files[i];
    assert files[..i + 1] == a + [x];
    FlatOfSum(a, [x]);
    FlatOfOne(x);
  }

  lemma FlatOfTwo(files: seq<seq<VerifiedLine>>, a: seq<seq<VerifiedLine>>, b: seq<seq<VerifiedLine>>)
    requires files == a + b
    ensures Flat(files) == Flat(a) + Flat(b)
  {
    hide *;
    FlatOfSum(a, b);
  }

  /** `freeze`, up to the manifest: it fails exactly when there is nothing to freeze or some line has
      a problem or an id that another has too; else it writes every verified row, in id order. */
  method FreezeRows(known: set<string>, files: seq<seq<VerifiedLine>>) returns (r: Result<seq<Record>>)
    ensures r.Ok? <==> Flat(files) != [] && Clear(known, Flat(files))
    ensures r.Ok? ==> r.value == ById(RecordsOf(Flat(files)))
  {
    hide HasProblem, Clear, Read, Flat, RecordsOf, ById;
    var rows: map<string, Record>, order: seq<string> := map[], [];
    ReadNothing(known);
    FlatNothing(files);
    for i := 0 to |files|
      invariant Read(Flat(files[..i]), rows, order) && Clear(known, Flat(files[..i]))
    {
      ghost var before := Flat(files[..i]);
      FlatSum(files, i);
      assert before + files[i][..0] == before;
      for j := 0 to |files[i]|
        invariant Read(before + files[i][..j], rows, order) && Clear(known, before + files[i][..j])
      {
        var line := files[i][j];
        ghost var so := before + files[i][..j];
        ghost var rest := files[i][j + 1..] + Flat(files[i + 1..]);
        assert before + files[i][..j + 1] == so + [line];
        assert Flat(files) == so + [line] + rest;
        if HasProblem(known, line) {
          ProblemIsUnclear(known, so, line);
          StaysUnclear(known, so + [line], rest);
          return Failed;
        }
        ReadableLine(known, line);
        ReadMore(known, so, rows, order, line.record);
        if line.record.row.id in rows {
          StaysUnclear(known, so + [line], rest);
          return Failed;
        }
        rows := rows[line.record.row.id := line.record];
        order := order + [line.record.row.id];
      }
      assert files[i][..|files[i]|] == files[i];
    }
    assert files[..|files|] == files;
    RowsAreRead(known, Flat(files), rows, order);
    if order == [] {
      return Failed;
    }
    var sorted := SortIds(order);
    var out: seq<Record> := [];
    for k := 0 to |sorted|
      invariant out == ById(RecordsOf(Flat(files)))[..k]
    {
      out := out + [rows[sorted[k]]];
    }
    return Ok(out);
  }

  lemma ReadNothing(known: set<string>)
    ensures Read([], map[], []) && Clear(known, [])
  {
  }

  lemma FlatNothing(files: seq<seq<VerifiedLine>>)
    ensures Flat(files[..0]) == []
  {
  }

  lemma ProblemIsUnclear(known: set<string>, lines: seq<VerifiedLine>, line: VerifiedLine)
    requires HasProblem(known, line)
    ensures !Clear(known, lines + [line])
  {
    hide HasProblem;
    assert line in lines + [line];
  }

  lemma ReadableLine(known: set<string>, line: VerifiedLine)
    requires !HasProblem(known, line)
    ensures line.Verified?
  {
  }

  lemma {:induction false} AllAreRecords(known: set<string>, lines: seq<VerifiedLine>)
    requires forall l :: l in lines ==> !HasProblem(known, l)
    ensures |RecordsOf(lines)| == |lines| && forall i :: 0 <= i < |lines| ==> lines[i] == Verified(RecordsOf(lines)[i])
    decreases |lines|
  {
    hide HasProblem;
    if lines != [] {
      AllAreRecords(known, lines[..|lines| - 1]);
      ReadableLine(known, lines[|lines| - 1]);
    }
  }

  /** The sorted keys look up the sorted records. */
  lemma RowsAreRead(known: set<string>, lines: seq<VerifiedLine>, rows: map<string, Record>, order: seq<string>)
    requires Read(lines, rows, order) && Clear(known, lines)
    ensures order == [] <==> lines == []
    ensures var sorted, records := SortIds(order), ById(RecordsOf(lines));
      |sorted| == |records| && forall k :: 0 <= k < |sorted| ==> sorted[k] in rows && rows[sorted[k]] == records[k]
  {
    hide HasProblem, SortIds, ById, RecordsOf, Distinct;
    AllAreRecords(known, lines);
    SortIdsIs(RecordsOf(lines));
    var sorted, records := SortIds(order), ById(RecordsOf(lines));
    forall k | 0 <= k < |records| ensures sorted[k] in rows && rows[sorted[k]] == records[k] {
      SortedIsThere(RecordsOf(lines), k);
    }
  }

  lemma SortedIsThere(records: seq<Record>, k: nat)
    requires k < |records|
    ensures ById(records)[k] in records
  {
    hide ById, Ascending;
    ByIdHolds(records);
    assert ById(records)[k] in multiset(ById(records));
  }

  // ---- what reviews write ----

  /** A record that a review of the lines can have written. */
  ghost predicate FromReview(ground: Ground, lines: seq<Line>, r: Record) {
    exists line :: line in lines && Reviewable(line) && DecidedFrom(ground, line.row, r)
  }

  /** The record is the row as decided: as generated, with its spans sorted, or as an edit was
      grounded. */
  ghost predicate DecidedFrom(ground: Ground, row: Row, r: Record) {
    && r.row == row.(text := r.row.text, spans := r.row.spans)
    && r.guideline == GUIDELINE_VERSION
    && (r.decision == Accepted || r.decision == Edited)
    && (r.decision == Accepted ==> r.row.text == row.text && r.row.spans == Propagation.SortSpans(row.spans))
    && (r.decision == Edited ==> exists saved :: ground(saved, IsNegative(row)) == Some((r.row.text, r.row.spans)))
  }

  lemma {:induction false} DecideHolds(ground: Ground, negative: bool, text: string, spans: seq<Span>, edited: bool,
                                       keys: seq<Key>)
    requires edited ==> exists saved :: ground(saved, negative) == Some((text, spans))
    ensures var d := Decide(ground, negative, text, spans, edited, keys);
      && (d.decision == Accepted ==> !edited && d.text == text && d.spans == spans)
      && (d.decision == Edited ==> exists saved :: ground(saved, negative) == Some((d.text, d.spans)))
    decreases |keys|
  {
    if keys != [] {
      match keys[0]
      case Unknown => DecideHolds(ground, negative, text, spans, edited, keys[1..]);
      case Edit(saved) =>
        if saved.None? || ground(saved.value, negative).None? {
          DecideHolds(ground, negative, text, spans, edited, keys[1..]);
        } else {
          var (text', spans') := ground(saved.value, negative).value;
          assert ground(saved.value, negative) == Some((text', spans'));
          DecideHolds(ground, negative, text', spans', true, keys[1..]);
        }
      case _ =>
    }
  }

  lemma RecordedIsFrom(ground: Ground, row: Row, files: Files, reviewer: string, keys: seq<Key>)
    ensures var d := Decide(ground, IsNegative(row), row.text, Propagation.SortSpans(row.spans), false, keys);
      forall r :: r in Recorded(files, row, d, reviewer).verified && r !in files.verified ==>
        DecidedFrom(ground, row, r) && r.reviewer == reviewer
  {
    hide Decide, Propagation.SortSpans, IsNegative;
    DecideHolds(ground, IsNegative(row), row.text, Propagation.SortSpans(row.spans), false, keys);
  }

  lemma {:induction false} SessionWrites(hash: string -> nat, ground: Ground, all: seq<Line>, lines: seq<Line>,
                                         files: Files, done: set<string>, session: Session)
    requires forall l :: l in lines ==> l in all
    requires forall r :: r in files.verified ==> FromReview(ground, all, r)
    ensures forall r :: r in Reviewed(hash, ground, lines, files, done, session).verified ==> FromReview(ground, all, r)
    decreases |lines|
  {
    hide Decide, Recorded, InShare, IsNegative, DecidedFrom, Propagation.SortSpans, Propagation.InText,
         Propagation.Disjoint;
    if lines != [] {
      var line := lines[0];
      if !Reviewable(line) || !InShare(hash, line.row.id, session.share) || line.row.id in done {
        SessionWrites(hash, ground, all, lines[1..], files, done, session);
      } else {
        var d := Decide(ground, IsNegative(line.row), line.row.text, Propagation.SortSpans(line.row.spans), false,
          session.keys);
        RecordedIsFrom(ground, line.row, files, session.reviewer, session.keys);
        if d.decision != Left {
          SessionWrites(hash, ground, all, lines[1..], Recorded(files, line.row, d, session.reviewer), done,
                        session.(keys := d.rest));
        }
      }
    }
  }

  /** Every verified row of any sessions is a generated row as decided. */
  lemma {:induction false} SessionsWrite(hash: string -> nat, ground: Ground, lines: seq<Line>, files: Files,
                                         sessions: seq<Session>)
    requires forall r :: r in files.verified ==> FromReview(ground, lines, r)
    ensures forall r :: r in Sessions(hash, ground, lines, files, sessions).verified ==> FromReview(ground, lines, r)
    decreases |sessions|
  {
    hide Reviewed, FromReview, DecidedIds;
    if sessions != [] {
      SessionWrites(hash, ground, lines, lines, files, DecidedIds(files), sessions[0]);
      SessionsWrite(hash, ground, lines, Reviewed(hash, ground, lines, files, DecidedIds(files), sessions[0]),
        sessions[1..]);
    }
  }

  /** What `ground` grants of an edit it takes: spans of known types inside the text that do not
      overlap, and none in a hard negative. */
  ghost predicate Grounds(ground: Ground, known: set<string>) {
    forall saved, negative :: ground(saved, negative).Some? ==>
      var (text, spans) := ground(saved, negative).value;
      && Propagation.InText(text, spans) && Propagation.Disjoint(spans)
      && (forall s :: s in spans ==> s.kind in known) && (negative ==> spans == [])
  }

  /** A row that a review wrote can be frozen unless its reviewer has no name, or it was accepted
      as generated with a type that is no placeholder, or as a hard negative with spans. */
  lemma WrittenRowProblem(ground: Ground, known: set<string>, lines: seq<Line>, r: Record)
    requires FromReview(ground, lines, r) && Grounds(ground, known)
    ensures HasProblem(known, Verified(r)) <==>
      || r.reviewer == ""
      || (r.decision == Accepted
          && ((exists s :: s in r.row.spans && s.kind !in known) || (r.row.spans != [] && IsNegative(r.row))))
  {
    hide Propagation.InText, Propagation.Disjoint, Propagation.SortSpans, IsNegative;
    var line :| line in lines && Reviewable(line) && DecidedFrom(ground, line.row, r);
    SameNegative(line.row, r.row);
    if r.decision == Accepted {
      SortedSpansFit(line.row.text, line.row.spans);
    } else {
      var saved :| ground(saved, IsNegative(line.row)) == Some((r.row.text, r.row.spans));
    }
  }

  lemma SameNegative(a: Row, b: Row)
    requires a.promptId == b.promptId
    ensures IsNegative(a) == IsNegative(b)
  {
  }

  lemma SortedSpansFit(text: string, spans: seq<Span>)
    requires Propagation.InText(text, spans) && Propagation.Disjoint(spans)
    ensures Propagation.InText(text, Propagation.SortSpans(spans)) && Propagation.Disjoint(Propagation.SortSpans(spans))
  {
    Propagation.SortSpansHolds(spans);
  }

  // ---- freezing all shares ----

  function LinesOf(records: seq<Record>): (r: seq<VerifiedLine>)
    ensures |r| == |records| && forall i :: 0 <= i < |r| ==> r[i] == Verified(records[i])
  {
    seq(|records|, i requires 0 <= i < |records| => Verified(records[i]))
  }

  function Outputs(files: seq<Files>): (r: seq<seq<VerifiedLine>>)
    ensures |r| == |files| && forall k :: 0 <= k < |r| ==> r[k] == LinesOf(files[k].verified)
  {
    seq(|files|, k requires 0 <= k < |files| => LinesOf(files[k].verified))
  }

  /** Line i of the files is line j of file k. */
  lemma {:induction false} FlatAt(files: seq<seq<VerifiedLine>>, i: nat) returns (k: nat, j: nat)
    requires i < |Flat(files)|
    ensures k < |files| && j < |files[k]| && Flat(files)[i] == files[k][j]
    ensures i == |Flat(files[..k])| + j
  {
    if i < |files[0]| {
      k, j := 0, i;
      assert files[..0] == [];
    } else {
      k, j := FlatAt(files[1..], i - |files[0]|);
      assert files[..k + 1][1..] == files[1..][..k];
      k := k + 1;
    }
  }

  /** The record stands in the verified file of some share. */
  predicate IsVerified(outputs: seq<Files>, r: Record) {
    exists k :: 0 <= k < |outputs| && r in outputs[k].verified
  }

  /** The outputs of all shares frozen together never meet an id twice: freezing them fails exactly
      when no row was verified or some row has a problem of its own. On success it writes exactly the
      rows accepted or edited in some share, in id order. */
  lemma SharesFreeze(hash: string -> nat, ground: Ground, known: set<string>, lines: seq<Line>, outputs: seq<Files>,
                     runs: seq<seq<Session>>)
    requires Distinct(LineIds(lines)) && SharedOut(hash, ground, lines, outputs, runs)
    ensures var all := Flat(Outputs(outputs));
      && (Clear(known, all) <==> forall l :: l in all ==> !HasProblem(known, l))
      && Ascending(ById(RecordsOf(all)))
      && multiset(ById(RecordsOf(all))) == multiset(RecordsOf(all))
      && LinesOf(RecordsOf(all)) == all
      && forall r :: Verified(r) in all <==> IsVerified(outputs, r)
  {
    hide HasProblem, Flat, RecordsOf, ById, SharedOut, Distinct, LineIds, Ascending, IsVerified;
    var all := Flat(Outputs(outputs));
    ByIdHolds(RecordsOf(all));
    AllVerified(outputs);
    RecordsOfLines(all);
    if forall l :: l in all ==> !HasProblem(known, l) {
      IdsAreDistinct(hash, ground, lines, outputs, runs);
    }
  }

  lemma AllVerified(outputs: seq<Files>)
    ensures forall l :: l in Flat(Outputs(outputs)) ==> l.Verified?
    ensures forall r :: Verified(r) in Flat(Outputs(outputs)) <==> IsVerified(outputs, r)
  {
    hide Flat;
    var files := Outputs(outputs);
    var all := Flat(files);
    forall l | l in all ensures l.Verified? && exists k :: 0 <= k < |outputs| && l.record in outputs[k].verified {
      var i :| 0 <= i < |all| && all[i] == l;
      var k, j := FlatAt(files, i);
      assert outputs[k].verified[j] in outputs[k].verified;
    }
    forall r, k | 0 <= k < |outputs| && r in outputs[k].verified ensures Verified(r) in all {
      var j :| 0 <= j < |outputs[k].verified| && outputs[k].verified[j] == r;
      FlatSum(files, k);
      assert files[k][j] == Verified(r);
      assert Flat(files[..k + 1])[|Flat(files[..k])| + j] == Verified(r);
      assert all[|Flat(files[..k])| + j] == Verified(r);
    }
  }

  lemma {:induction false} RecordsOfLines(lines: seq<VerifiedLine>)
    requires forall l :: l in lines ==> l.Verified?
    ensures LinesOf(RecordsOf(lines)) == lines
    decreases |lines|
  {
    if lines != [] {
      RecordsOfLines(lines[..|lines| - 1]);
      assert |RecordsOf(lines[..|lines| - 1])| == |lines| - 1;
    }
  }

  /** Two lines of the files with one id are one line. */
  lemma SameIdSameLine(hash: string -> nat, ground: Ground, lines: seq<Line>, outputs: seq<Files>,
                       runs: seq<seq<Session>>, a: nat, b: nat)
    requires Distinct(LineIds(lines)) && SharedOut(hash, ground, lines, outputs, runs)
    requires a < |Flat(Outputs(outputs))| && b < |Flat(Outputs(outputs))|
    requires Flat(Outputs(outputs))[a].Verified? && Flat(Outputs(outputs))[b].Verified?
    requires Flat(Outputs(outputs))[a].record.row.id == Flat(Outputs(outputs))[b].record.row.id
    ensures a == b
  {
    hide Flat, Sessions, Distinct, LineIds, InShare, OneEach, RecordedIds;
    var id := Flat(Outputs(outputs))[a].record.row.id;
    var j, m := FlatAt(Outputs(outputs), a);
    var k, n := FlatAt(Outputs(outputs), b);
    IdIsRecorded(outputs[j], m);
    IdIsRecorded(outputs[k], n);
    SharesDoNotMeet(hash, ground, lines, outputs, runs, j, k, id);
    OneEachOfNone();
    OneDecisionEach(hash, ground, lines, Files([], []), runs[j]);
    OnePlace(outputs[j], m, n);
  }

  lemma IdIsRecorded(files: Files, m: nat)
    requires m < |files.verified|
    ensures files.verified[m].row.id in RecordedIds(files)
  {
    assert VerifiedIds(files.verified)[m] == files.verified[m].row.id;
  }

  lemma OnePlace(files: Files, m: nat, n: nat)
    requires OneEach(RecordedIds(files)) && m < |files.verified| && n < |files.verified|
    requires files.verified[m].row.id == files.verified[n].row.id
    ensures m == n
  {
    var ids := VerifiedIds(files.verified);
    OneEachPart(multiset(ids), multiset(files.rejected));
    if !Distinct(ids) {
      Repeated(ids);
      assert false;
    }
    assert ids[m] == ids[n];
  }

  lemma OneEachPart(a: multiset<string>, b: multiset<string>)
    requires OneEach(a + b)
    ensures OneEach(a)
  {
    forall id | id in a ensures a[id] == 1 {
      assert id in a + b;
    }
  }

  lemma IdsAreDistinct(hash: string -> nat, ground: Ground, lines: seq<Line>, outputs: seq<Files>,
                       runs: seq<seq<Session>>)
    requires Distinct(LineIds(lines)) && SharedOut(hash, ground, lines, outputs, runs)
    ensures Distinct(VerifiedIds(RecordsOf(Flat(Outputs(outputs)))))
  {
    hide Flat, RecordsOf, SharedOut, LineIds;
    var all := Flat(Outputs(outputs));
    AllVerified(outputs);
    RecordsOfLines(all);
    var ids := VerifiedIds(RecordsOf(all));
    forall a, b | 0 <= a < b < |ids| ensures ids[a] != ids[b] {
      assert LinesOf(RecordsOf(all))[a] == all[a] && LinesOf(RecordsOf(all))[b] == all[b];
      assert all[a] in all && all[b] in all;
      if ids[a] == ids[b] {
        SameIdSameLine(hash, ground, lines, outputs, runs, a, b);
        assert false;
      }
    }
  }
}

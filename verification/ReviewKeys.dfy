/** A review told by the reviewer's keys, and which rows are asked about and frozen
    (scripts/pii_corpus/review.py). */
module ReviewKeys {
  import opened Wrappers
  import Propagation
  import opened Review
  import opened Freeze

  // ---- the keys ----

  /** The keys that end the prompt of a row. */
  predicate Ends(k: Key) {
    k == Accept || k == Reject || k == Skip || k == Quit
  }

  /** The last edit that was saved and grounded, among some keys. */
  function LastEdit(ground: Ground, negative: bool, keys: seq<Key>): Option<(string, seq<Span>)> {
    if keys == [] then None
    else
      var k := keys[|keys| - 1];
      if k.Edit? && k.saved.Some? && ground(k.saved.value, negative).Some? then ground(k.saved.value, negative)
      else LastEdit(ground, negative, keys[..|keys| - 1])
  }

  lemma {:induction false} LastEditFrom(ground: Ground, negative: bool, k: Key, keys: seq<Key>)
    ensures LastEdit(ground, negative, [k] + keys)
      == if LastEdit(ground, negative, keys).Some? then LastEdit(ground, negative, keys)
         else LastEdit(ground, negative, [k])
    decreases |keys|
  {
    if keys != [] {
      assert ([k] + keys)[..|keys|] == [k] + keys[..|keys| - 1];
      LastEditFrom(ground, negative, k, keys[..|keys| - 1]);
    } else {
      assert [k] + keys == [k];
    }
  }

  lemma OneEdit(ground: Ground, negative: bool, k: Key)
    ensures LastEdit(ground, negative, [k])
      == if k.Edit? && k.saved.Some? then ground(k.saved.value, negative) else None
  {
    assert [k][..0] == [];
  }

  /** The keys before `at` do not end the prompt, and the one there does, if there is one. */
  predicate FirstEnd(keys: seq<Key>, at: nat) {
    && at <= |keys| && (at < |keys| ==> Ends(keys[at]))
    && forall i :: 0 <= i < at ==> !Ends(keys[i])
  }

  /** The first of the keys a, r, s and q decides; without one the input ends and the row is left. An
      accepted row is edited if an edit was saved and grounded before, and the last such edit is what
      is accepted. The keys after the deciding one are for the next row. */
  lemma {:induction false} DecidedByKeys(ground: Ground, negative: bool, text: string, spans: seq<Span>, edited: bool,
                                         keys: seq<Key>, at: nat)
    requires FirstEnd(keys, at)
    ensures var d, edit := Decide(ground, negative, text, spans, edited, keys), LastEdit(ground, negative, keys[..at]);
      && (at == |keys| ==> d.decision == Left && d.rest == [])
      && (at < |keys| ==>
            && d.rest == keys[at + 1..]
            && (keys[at] == Accept ==> d.decision == if edited || edit.Some? then Edited else Accepted)
            && (keys[at] == Reject ==> d.decision == Rejected)
            && (keys[at] == Skip ==> d.decision == Skipped)
            && (keys[at] == Quit ==> d.decision == Left))
      && (d.text, d.spans) == if edit.Some? then edit.value else (text, spans)
    decreases |keys|
  {
    if at > 0 {
      var k, rest := keys[0], keys[1..];
      assert keys[..at] == [k] + rest[..at - 1];
      LastEditFrom(ground, negative, k, rest[..at - 1]);
      OneEdit(ground, negative, k);
      assert at < |keys| ==> rest[at - 1 + 1..] == keys[at + 1..];
      if k.Edit? && k.saved.Some? && ground(k.saved.value, negative).Some? {
        var (text', spans') := ground(k.saved.value, negative).value;
        DecidedByKeys(ground, negative, text', spans', true, rest, at - 1);
      } else {
        DecidedByKeys(ground, negative, text, spans, edited, rest, at - 1);
      }
    }
  }

  // ---- which rows are asked about ----

  lemma NegativeMeans(row: Row)
    ensures IsNegative(row) <==> exists name :: row.promptId == Word(name + ".negative")
  {
    if IsNegative(row) {
      var s := row.promptId.s;
      assert s == s[..|s| - 9] + ".negative";
    }
    if name: string :| row.promptId == Word(name + ".negative") {
      assert (name + ".negative")[|name|..] == ".negative";
    }
  }

  /** Share k of n, from 1 to n, is every id whose hash leaves the remainder k - 1. */
  lemma ShareMeans(hash: string -> nat, id: string, k: nat, n: nat)
    requires 1 <= k <= n
    ensures InShare(hash, id, None)
    ensures InShare(hash, id, Some(Share(k, n))) <==> exists m :: hash(id) == m * n + (k - 1)
  {
    Divided(hash(id), n);
    if m: int :| hash(id) == m * n + (k - 1) {
      Remainder(hash(id), m, k - 1, n);
    }
  }

  lemma Divided(x: nat, n: nat)
    requires n > 0
    ensures x == (x / n) * n + x % n
  {
  }

  lemma Remainder(x: int, m: int, r: nat, n: nat)
    requires r < n && x == m * n + r
    ensures x % n == r
  {
    var q := x / n;
    assert x == q * n + x % n;
    assert (q - m) * n == r - x % n && (m - q) * n == x % n - r;
    if q > m {
      Times(q - m, n);
    } else if q < m {
      Times(m - q, n);
    }
  }

  lemma Times(a: int, n: nat)
    requires a >= 1
    ensures a * n >= n
  {
  }

  /** A row is asked about when it has an id, a teacher and a prompt, none empty, a whole number as its
      seed, and spans inside its text of which no two overlap. */
  lemma ReviewableMeans(line: Line)
    ensures Reviewable(line)
      <==> && line.Good?
           && line.row.id != ""
           && (exists s :: s != "" && line.row.teacher == Word(s))
           && (exists s :: s != "" && line.row.promptId == Word(s))
           && (exists n :: line.row.seed == Whole(n))
           && SpansFit(line.row.text, line.row.spans)
  {
    if line.Good? {
      FitIs(line.row.text, line.row.spans);
    }
  }

  /** Each span holds a character of the text at least, and none starts before another that starts no
      later has ended. */
  predicate SpansFit(text: string, spans: seq<Span>) {
    && (forall i :: 0 <= i < |spans| ==> 0 <= spans[i].start && spans[i].start < spans[i].end && spans[i].end <= |text|)
    && forall i, j :: 0 <= i < |spans| && 0 <= j < |spans| && i != j && spans[i].start <= spans[j].start ==>
         spans[i].end <= spans[j].start
  }

  lemma FitIs(text: string, spans: seq<Span>)
    ensures SpansFit(text, spans) <==> Propagation.InText(text, spans) && Propagation.Disjoint(spans)
  {
    if Propagation.InText(text, spans) && Propagation.Disjoint(spans) {
      forall i | 0 <= i < |spans| ensures 0 <= spans[i].start < spans[i].end <= |text| {
        assert spans[i] in spans;
      }
      forall i, j | 0 <= i < |spans| && 0 <= j < |spans| && i != j && spans[i].start <= spans[j].start
        ensures spans[i].end <= spans[j].start
      {
        assert Propagation.Apart(spans[i], spans[j]) || Propagation.Apart(spans[j], spans[i]);
      }
    }
  }

  // ---- what is written ----

  /** What a record holds. */
  lemma RecordMeans(row: Row, decided: Decided, reviewer: string)
    ensures var r := RecordOf(row, decided, reviewer);
      && r.row.id == row.id && r.row.teacher == row.teacher && r.row.promptId == row.promptId && r.row.seed == row.seed
      && r.row.text == decided.text && r.row.spans == decided.spans
      && r.reviewer == reviewer && r.decision == decided.decision && r.guideline == 1
  {
  }

  /** One row and one reviewer, from the keys to the files: accepted, the row is verified with the last
      edit, if any, or as generated with its spans sorted; rejected, its id is set aside; skipped or
      left, nothing is written. A row of another share, or decided before, is not asked about. */
  lemma RowByKeys(hash: string -> nat, ground: Ground, row: Row, files: Files, done: set<string>, session: Session,
                  at: nat)
    requires Reviewable(Good(row)) && FirstEnd(session.keys, at)
    ensures var r := Reviewed(hash, ground, [Good(row)], files, done, session);
      var edit := LastEdit(ground, IsNegative(row), session.keys[..at]);
      if !InShare(hash, row.id, session.share) || row.id in done || at == |session.keys| then r == files
      else
        && (session.keys[at] == Skip || session.keys[at] == Quit ==> r == files)
        && (session.keys[at] == Reject ==> r == Files(files.verified, files.rejected + [row.id]))
        && (session.keys[at] == Accept ==>
              && r.rejected == files.rejected
              && |r.verified| == |files.verified| + 1 && r.verified[..|files.verified|] == files.verified
              && var record := r.verified[|files.verified|];
                && record.row.id == row.id && record.reviewer == session.reviewer && record.guideline == 1
                && record.decision == (if edit.Some? then Edited else Accepted)
                && (record.row.text, record.row.spans)
                   == if edit.Some? then edit.value else (row.text, Propagation.SortSpans(row.spans)))
  {
    hide Decide, Reviewable, InShare, LastEdit, IsNegative;
    DecidedByKeys(ground, IsNegative(row), row.text, Propagation.SortSpans(row.spans), false, session.keys, at);
    ReviewedOne(hash, ground, row, files, done, session);
  }

  lemma ReviewedOne(hash: string -> nat, ground: Ground, row: Row, files: Files, done: set<string>, session: Session)
    requires Reviewable(Good(row))
    ensures var d := Decide(ground, IsNegative(row), row.text, Propagation.SortSpans(row.spans), false, session.keys);
      Reviewed(hash, ground, [Good(row)], files, done, session)
      == if !InShare(hash, row.id, session.share) || row.id in done || d.decision == Left then files
         else Recorded(files, row, d, session.reviewer)
  {
    hide Decide, Reviewable, InShare, IsNegative, Recorded;
    var d := Decide(ground, IsNegative(row), row.text, Propagation.SortSpans(row.spans), false, session.keys);
    assert [Good(row)][1..] == [];
    ReviewedNothing(hash, ground, [], files, done, session);
    ReviewedNothing(hash, ground, [], Recorded(files, row, d, session.reviewer), done, session.(keys := d.rest));
  }

  // ---- which rows are frozen ----

  /** A line can be frozen when it reads, has an id, its spans fit, are of known types, and there are
      none in a hard negative, and when a named reviewer accepted or edited it under guideline 1. */
  lemma FrozenMeans(known: set<string>, line: VerifiedLine)
    ensures !HasProblem(known, line)
      <==> && line.Verified?
           && var r := line.record;
             && r.row.id != "" && SpansFit(r.row.text, r.row.spans)
             && (forall i :: 0 <= i < |r.row.spans| ==> r.row.spans[i].kind in known)
             && (r.row.spans == [] || !exists name :: r.row.promptId == Word(name + ".negative"))
             && r.reviewer != "" && (r.decision == Accepted || r.decision == Edited) && r.guideline == 1
  {
    hide IsNegative, SpansFit, Propagation.InText, Propagation.Disjoint;
    if line.Verified? {
      FitIs(line.record.row.text, line.record.row.spans);
      NegativeMeans(line.record.row);
    }
  }
}

/** The content tables behind the full-text indexes: caption rows and program rows with their row ids, and what the
  * triggers keep while the indexer's statements change them (migrations/20260713000000_search_schema.sql,
  * src/search_db/ingest.rs). */
module SearchContent {
  import opened SearchTables
  import F = FtsIndex

  type LineIds = map<(nat, nat), nat>

  ghost predicate HasLine(captions: map<nat, map<nat, CaptionLine>>, line: (nat, nat)) {
    line.0 in captions && line.1 in captions[line.0]
  }

  ghost predicate IdsDiffer(ids: LineIds) {
    forall a, b :: a in ids && b in ids && ids[a] == ids[b] ==> a == b
  }

  ghost predicate EveryLineHasId(captions: map<nat, map<nat, CaptionLine>>, ids: LineIds) {
    forall line :: line in ids <==> HasLine(captions, line)
  }

  ghost predicate TextsIndexed(captions: map<nat, map<nat, CaptionLine>>, ids: LineIds, rows: map<nat, F.Columns>) {
    forall line :: line in ids && HasLine(captions, line) ==>
      ids[line] in rows && rows[ids[line]] == [captions[line.0][line.1].normalizedText]
  }

  ghost predicate NoOtherRows(ids: LineIds, rows: map<nat, F.Columns>) {
    forall row :: row in rows ==> exists line :: line in ids && ids[line] == row
  }

  /** `ids` gives every caption row an id of its own, and `rows` holds the indexed text of every id. */
  ghost predicate IsCaptionContent(captions: map<nat, map<nat, CaptionLine>>, ids: LineIds, rows: map<nat, F.Columns>) {
    && EveryLineHasId(captions, ids)
    && IdsDiffer(ids)
    && TextsIndexed(captions, ids, rows)
    && NoOtherRows(ids, rows)
  }

  function LinesOf(ids: LineIds, gone: set<nat>): set<nat> {
    set line | line in ids && line.0 in gone :: ids[line]
  }

  lemma {:induction false} InsertedLine(
      captions: map<nat, map<nat, CaptionLine>>, line: (nat, nat), caption: CaptionLine, other: (nat, nat))
    ensures var captions' := captions[line.0 := CaptionsOf(captions, line.0)[line.1 := caption]];
      && (HasLine(captions', other) <==> other == line || HasLine(captions, other))
      && (HasLine(captions', other) ==>
            captions'[other.0][other.1] == if other == line then caption else captions[other.0][other.1])
  {
  }

  lemma {:induction false} InsertedRows(ids: LineIds, rows: map<nat, F.Columns>, line: (nat, nat), row: nat, texts: F.Columns)
    requires IdsDiffer(ids) && NoOtherRows(ids, rows)
    requires if line in ids then row == ids[line] else row !in rows
    requires forall l :: l in ids ==> ids[l] in rows
    ensures IdsDiffer(ids[line := row]) && NoOtherRows(ids[line := row], rows[row := texts])
  {
    var ids', rows' := ids[line := row], rows[row := texts];
    forall r | r in rows' ensures exists l :: l in ids' && ids'[l] == r {
      if r == row {
        assert line in ids' && ids'[line] == r;
      } else {
        var l :| l in ids && ids[l] == r;
        assert l in ids' && ids'[l] == r;
      }
    }
  }

  lemma {:induction false} ContentInserted(
      captions: map<nat, map<nat, CaptionLine>>, ids: LineIds, rows: map<nat, F.Columns>, line: (nat, nat), row: nat,
      caption: CaptionLine)
    requires IsCaptionContent(captions, ids, rows)
    requires if line in ids then row == ids[line] else row !in rows
    ensures IsCaptionContent(
      captions[line.0 := CaptionsOf(captions, line.0)[line.1 := caption]],
      ids[line := row],
      rows[row := [caption.normalizedText]])
  {
    hide HasLine, NoOtherRows, CaptionsOf;
    InsertedRows(ids, rows, line, row, [caption.normalizedText]);
    forall other: (nat, nat) {
      InsertedLine(captions, line, caption, other);
    }
  }

  lemma {:induction false} ContentDeleted(
      captions: map<nat, map<nat, CaptionLine>>, ids: LineIds, rows: map<nat, F.Columns>, gone: set<nat>)
    requires IsCaptionContent(captions, ids, rows)
    ensures LinesOf(ids, gone) <= rows.Keys
    ensures IsCaptionContent(
      captions - gone, map line | line in ids && line.0 !in gone :: ids[line], rows - LinesOf(ids, gone))
  {
    var ids', rows' := map line | line in ids && line.0 !in gone :: ids[line], rows - LinesOf(ids, gone);
    forall l ensures l in ids' <==> HasLine(captions - gone, l) {
      assert l in ids <==> HasLine(captions, l);
    }
    forall r | r in rows' ensures exists l :: l in ids' && ids'[l] == r {
      var l :| l in ids && ids[l] == r;
      assert l in ids' && ids'[l] == r;
    }
  }

  /** The indexed texts of a program. */
  function ProgramTexts(program: Program): F.Columns {
    [program.normalizedTitle, program.normalizedDescription]
  }

  function ProgramContent(programs: map<nat, Program>): map<nat, F.Columns> {
    map id | id in programs :: ProgramTexts(programs[id])
  }

  /** Everything a rolled-back transaction restores. */
  datatype Content = Content(
    captions: map<nat, map<nat, CaptionLine>>,
    ids: LineIds,
    programs: map<nat, Program>,
    captionRows: map<nat, F.Columns>,
    captionPostings: set<F.Posting>,
    programRows: map<nat, F.Columns>,
    programPostings: set<F.Posting>)

  /** The full-text indexes hold exactly what the content tables say. */
  ghost predicate IsInStep(content: Content) {
    && IsCaptionContent(content.captions, content.ids, content.captionRows)
    && F.InStep(content.captionRows, content.captionPostings)
    && content.programRows == ProgramContent(content.programs)
    && F.InStep(content.programRows, content.programPostings)
  }

  /** Both content tables with their full-text indexes. Every change of a row goes through its triggers. */
  class ContentTables {
    var captions: map<nat, map<nat, CaptionLine>>
    var ids: LineIds
    var programs: map<nat, Program>
    const captionFts: F.FtsTable
    const programFts: F.FtsTable

    function Value(): Content
      reads this, captionFts, programFts
    {
      Content(captions, ids, programs, captionFts.rows, captionFts.postings, programFts.rows, programFts.postings)
    }

    ghost predicate Valid()
      reads this, captionFts, programFts
    {
      captionFts != programFts && IsInStep(Value())
    }

    constructor ()
      ensures Valid() && captions == map[] && programs == map[] && fresh(captionFts) && fresh(programFts)
    {
      captions, ids, programs := map[], map[], map[];
      captionFts := new F.FtsTable();
      programFts := new F.FtsTable();
    }

    /** What rolling a transaction back does. */
    method Restore(saved: Content)
      requires captionFts != programFts && IsInStep(saved)
      modifies this, captionFts, programFts
      ensures Valid() && Value() == saved
    {
      captions, ids, programs := saved.captions, saved.ids, saved.programs;
      captionFts.rows, captionFts.postings := saved.captionRows, saved.captionPostings;
      programFts.rows, programFts.postings := saved.programRows, saved.programPostings;
    }

    /** Inserts a caption, or updates the row that has its program and line number. */
    method UpsertCaption(id: nat, lineNo: nat, caption: CaptionLine)
      requires Valid()
      modifies this`captions, this`ids, captionFts
      ensures Valid()
      ensures captions == old(captions)[id := CaptionsOf(old(captions), id)[lineNo := caption]]
    {
      hide IsCaptionContent, F.InStep, F.RowPostings;
      var line := (id, lineNo);
      var row: nat;
      LineHasRow(captions, ids, captionFts.rows, line);
      if line in ids {
        row := ids[line];
        captionFts.Update(row, [caption.normalizedText]);
      } else {
        row := AllocateRowid(captionFts.rows.Keys);
        captionFts.Insert(row, [caption.normalizedText]);
      }
      ContentInserted(captions, ids, old(captionFts.rows), line, row, caption);
      captions := captions[id := CaptionsOf(captions, id)[lineNo := caption]];
      ids := ids[line := row];
    }

    /** Deletes the captions of programs, as an EIT's takeover or a cascade does. */
    method DeleteCaptionsOf(gone: set<nat>)
      requires Valid()
      modifies this`captions, this`ids, captionFts
      ensures Valid() && captions == old(captions) - gone
    {
      hide IsCaptionContent, F.InStep;
      ContentDeleted(captions, ids, captionFts.rows, gone);
      captionFts.DeleteAll(LinesOf(ids, gone));
      captions := captions - gone;
      ids := map line | line in ids && line.0 !in gone :: ids[line];
    }

    /** Inserts a program row or updates it in place. */
    method PutProgram(id: nat, program: Program)
      requires Valid()
      modifies this`programs, programFts
      ensures Valid() && programs == old(programs)[id := program]
    {
      hide IsCaptionContent, F.InStep;
      if id in programs {
        programFts.Update(id, ProgramTexts(program));
      } else {
        programFts.Insert(id, ProgramTexts(program));
      }
      programs := programs[id := program];
      assert ProgramContent(programs) == ProgramContent(old(programs))[id := ProgramTexts(program)];
    }

    /** Deletes programs; their captions cascade. */
    method DeletePrograms(gone: set<nat>)
      requires Valid() && gone <= programs.Keys
      modifies this`programs, this`captions, this`ids, captionFts, programFts
      ensures Valid() && programs == old(programs) - gone && captions == old(captions) - gone
    {
      hide IsCaptionContent, F.InStep;
      DeleteCaptionsOf(gone);
      programFts.DeleteAll(gone);
      programs := programs - gone;
      assert ProgramContent(programs) == ProgramContent(old(programs)) - gone;
    }
  }

  lemma {:induction false} LineHasRow(
      captions: map<nat, map<nat, CaptionLine>>, ids: LineIds, rows: map<nat, F.Columns>, line: (nat, nat))
    requires IsCaptionContent(captions, ids, rows)
    ensures line in ids ==> ids[line] in rows
  {
  }
}

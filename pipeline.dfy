/** The batch run over the intake folder: every file whose name selects a
    reader is read, its dates and names are reported, it is categorised and it is
    moved into the sorted tree under its own name; every other file is left where
    it is. Afterwards the sorted tree is archived into the intake folder. */
module Pipeline {
  import opened Text
  import opened Extraction
  import opened Entities
  import opened Categorizer
  import opened Layout

  /** The foreign services the batch relies on, each a function of its input. */
  datatype Services = Services(
    ocr: Bytes -> Opened<string>,           // open an image and run OCR on it
    pdfPages: Bytes -> Opened<seq<string>>, // open a PDF and give each page's text
    docxParagraphs: Bytes -> Opened<seq<string>>, // open a Word file and give its paragraphs
    recognize: Recognizer,                  // named-entity recognition
    find: Finder,                           // regular-expression search
    rank: Ranker,                           // zero-shot label ranking
    archive: Tree -> Bytes                  // zip the sorted tree
  )

  /** The archive's name in the intake folder. */
  const ArchiveName := "sorted_documents.zip"

  /** The text a file yields, or None when its name selects no reader. */
  function DocumentText(name: string, content: Bytes, svc: Services): Option<string> {
    match KindOf(name)
    case Image => Some(ImageText(svc.ocr(content)))
    case Pdf => Some(PdfText(svc.pdfPages(content)))
    case Docx => Some(DocxText(svc.docxParagraphs(content)))
    case Unsupported => None
  }

  datatype Option<T> = None | Some(value: T)

  /** What the batch does with one file. */
  datatype Route = Skip | Place(category: string) | Fail

  function RouteOf(name: string, content: Bytes, svc: Services): Route {
    match DocumentText(name, content, svc)
    case None => Skip
    case Some(text) =>
      match Categorize(text, svc.rank)
      case Category(c) => Place(c)
      case NoLabel => Fail
  }

  /** A file is skipped exactly when its name selects no reader, so ".zip"
      files, the produced archive among them, are never read or moved; a file
      the batch cannot place is one the ranking service gave no label for. */
  lemma RouteCases(name: string, content: Bytes, svc: Services)
    ensures RouteOf(name, content, svc) == Skip <==> KindOf(name) == Unsupported
    ensures EndsWith(Lower(name), ".zip") ==> RouteOf(name, content, svc) == Skip
    ensures RouteOf(name, content, svc) == Fail ==>
      svc.rank(Preprocess(DocumentText(name, content, svc).value), Candidates) == []
  {
    KindBySuffix(name);
    if DocumentText(name, content, svc).Some? {
      NoLabelIff(DocumentText(name, content, svc).value, svc.rank);
    }
  }

  /** A reader that fails does not stop the batch: its error text is what gets
      categorised, and the file is placed or fails like any other. */
  lemma ReadFailureStillCategorised(name: string, content: Bytes, svc: Services)
    requires || (KindOf(name) == Image && svc.ocr(content).Failed?)
             || (KindOf(name) == Pdf && svc.pdfPages(content).Failed?)
             || (KindOf(name) == Docx && svc.docxParagraphs(content).Failed?)
    ensures DocumentText(name, content, svc).Some?
    ensures KindOf(name) == Image ==>
      DocumentText(name, content, svc).value == "Error processing image: " + svc.ocr(content).message
    ensures KindOf(name) == Pdf ==>
      DocumentText(name, content, svc).value == "Error processing PDF: " + svc.pdfPages(content).message
    ensures KindOf(name) == Docx ==>
      DocumentText(name, content, svc).value == "Error processing DOCX: " + svc.docxParagraphs(content).message
    ensures RouteOf(name, content, svc) != Skip
    ensures RouteOf(name, content, svc).Place? <==>
      Categorize(DocumentText(name, content, svc).value, svc.rank).Category?
  {
  }

  /** The archive itself is never read or moved by a later batch. */
  lemma ArchiveIsSkipped(content: Bytes, svc: Services)
    ensures RouteOf(ArchiveName, content, svc) == Skip
  {
    var lowered := Lower(ArchiveName);
    assert |lowered| == 20;
    assert ArchiveName[16] == '.' && ArchiveName[17] == 'z' && ArchiveName[18] == 'i' && ArchiveName[19] == 'p';
    assert lowered[16] == LowerChar(ArchiveName[16]) && lowered[17] == LowerChar(ArchiveName[17]);
    assert lowered[18] == LowerChar(ArchiveName[18]) && lowered[19] == LowerChar(ArchiveName[19]);
    assert lowered[16] == '.' && lowered[17] == 'z' && lowered[18] == 'i' && lowered[19] == 'p';
    assert lowered[|lowered| - 4..] == ".zip";
    RouteCases(ArchiveName, content, svc);
  }

  /** When the ranking service returns a permutation of the candidates for a
      readable file's text, the file is placed in one of the seven category
      folders. */
  lemma PlacedInKnownCategory(name: string, content: Bytes, svc: Services)
    requires KindOf(name) != Unsupported
    requires multiset(svc.rank(Preprocess(DocumentText(name, content, svc).value), Candidates)) == multiset(Candidates)
    ensures RouteOf(name, content, svc).Place?
    ensures RouteOf(name, content, svc).category in Categories
  {
    CategoryIsKnown(DocumentText(name, content, svc).value, svc.rank);
  }

  /** One printed report line: file name, dates, names and category. */
  datatype Report = Report(filename: string, dates: seq<string>, names: seq<string>, category: string)

  /** A batch either handles every file or stops at the first file the ranking
      service gave no label for; nothing catches that failure, so no archive is
      produced. An exception raised by the recogniser or the ranking service
      would stop the batch in the same way; the services are total here, so
      that case is not represented. */
  datatype Outcome = Completed | RankingFailed(filename: string)

  /** Reads a file with the reader its name selects, or with none. */
  method ReadDocument(name: string, content: Bytes, svc: Services) returns (text: Option<string>)
    ensures text == DocumentText(name, content, svc)
  {
    match KindOf(name) {
      case Image =>
        text := Some(ImageText(svc.ocr(content)));
      case Pdf =>
        var t := ExtractTextFromPdf(svc.pdfPages(content));
        text := Some(t);
      case Docx =>
        text := Some(DocxText(svc.docxParagraphs(content)));
      case Unsupported =>
        text := None;
    }
  }

  /** A move the batch makes: the file was in the intake with this content and
      its text decides this category. */
  ghost predicate Planned(m: Move, intake0: map<string, Bytes>, svc: Services) {
    && m.name in intake0
    && m.content == intake0[m.name]
    && RouteOf(m.name, m.content, svc) == Place(m.category)
  }

  /** The report line printed for a move: the file's name and category, the
      person names of its text and its dates, each once. */
  ghost predicate Reported(r: Report, m: Move, svc: Services) {
    var text := DocumentText(m.name, m.content, svc);
    && text.Some?
    && r.filename == m.name && r.category == m.category
    && r.names == PersonNames(svc.recognize(text.value))
    && Distinct(r.dates)
    && (forall d :: d in r.dates <==> d in DateSet(text.value, svc.recognize(text.value), svc.find))
  }

  /** The names in a listing that select a reader. */
  function ReadableNames(names: seq<string>): set<string> {
    set f | f in names && KindOf(f) != Unsupported
  }

  /** Taking one more name of a listing adds it to the readable names if it is readable. */
  lemma ReadableNamesStep(listing: seq<string>, i: nat)
    requires i < |listing|
    ensures ReadableNames(listing[..i + 1]) ==
      ReadableNames(listing[..i]) + (if KindOf(listing[i]) != Unsupported then {listing[i]} else {})
  {
    assert listing[..i + 1] == listing[..i] + [listing[i]];
    assert forall g :: g in listing[..i + 1] <==> g in listing[..i] || g == listing[i];
  }

  lemma ReadablePrefix(listing: seq<string>, i: nat, intake0: map<string, Bytes>)
    requires i <= |listing|
    requires forall n :: n in listing <==> n in intake0
    ensures ReadableNames(listing[..i]) <= set f | f in intake0 && KindOf(f) != Unsupported
  {
    assert forall n :: n in listing[..i] ==> n in listing;
  }

  lemma ReadableNamesAll(listing: seq<string>, intake0: map<string, Bytes>)
    requires forall n :: n in listing <==> n in intake0
    ensures ReadableNames(listing[..|listing|]) == set f | f in intake0 && KindOf(f) != Unsupported
  {
    assert listing[..|listing|] == listing;
  }

  /** The facts recorded about a file the batch has just moved. */
  lemma MovedFacts(intake0: map<string, Bytes>, svc: Services, m: Move, r: Report, text: string)
    requires m.name in intake0 && m.content == intake0[m.name]
    requires DocumentText(m.name, m.content, svc) == Some(text)
    requires Categorize(text, svc.rank) == Category(m.category)
    requires r.filename == m.name && r.category == m.category
    requires r.names == PersonNames(svc.recognize(text))
    requires Distinct(r.dates)
    requires forall d :: d in r.dates <==> d in DateSet(text, svc.recognize(text), svc.find)
    ensures Planned(m, intake0, svc) && Reported(r, m, svc)
  {
  }

  lemma MovesSnoc(tree: Tree, moves: seq<Move>, m: Move)
    ensures NamesOf(moves + [m]) == NamesOf(moves) + {m.name}
    ensures ApplyMoves(tree, moves + [m]) == PlaceFile(ApplyMoves(tree, moves), m)
  {
    assert (moves + [m])[..|moves|] == moves;
    assert forall x :: x in moves + [m] <==> x in moves || x == m;
  }

  /** The intake folder and the sorted tree. */
  class DocumentStore {
    var intake: map<string, Bytes>
    var sorted: Tree

    constructor (intake0: map<string, Bytes>, sorted0: Tree)
      ensures intake == intake0 && sorted == sorted0
    {
      intake := intake0;
      sorted := sorted0;
    }

    /** The intake folder's listing, each name once, in an order of the file system's choosing. */
    method ListIntake() returns (names: seq<string>)
      ensures Distinct(names)
      ensures forall n :: n in names <==> n in intake
    {
      names := ListOf(intake.Keys);
    }

    /** Creates the category folder if it is absent and moves the file into it
        under its own name, replacing a file of that name already there. */
    method MoveToCategory(name: string, category: string)
      requires name in intake
      modifies this
      ensures intake == old(intake) - {name}
      ensures sorted == PlaceFile(old(sorted), Move(category, name, old(intake)[name]))
    {
      if category !in sorted {
        sorted := sorted[category := map[]];
      }
      sorted := sorted[category := sorted[category][name := intake[name]]];
      intake := intake - {name};
    }

    /** One entry of the intake listing: read it if its name selects a reader,
        report its dates and names, categorise it and move it. A file that is
        not read stays where it is; so does a file the ranking service gives
        no label for. */
    method SortOne(name: string, svc: Services) returns (route: Route, ghost m: Move, r: Report)
      requires name in intake
      modifies this
      ensures route == RouteOf(name, old(intake)[name], svc)
      ensures route.Place? ==>
        && m == Move(route.category, name, old(intake)[name])
        && Planned(m, old(intake), svc) && Reported(r, m, svc)
        && intake == old(intake) - {name}
        && sorted == PlaceFile(old(sorted), m)
      ensures !route.Place? ==> intake == old(intake) && sorted == old(sorted)
    {
      var content := intake[name];
      m, r := Move("", name, content), Report(name, [], [], "");
      var text := ReadDocument(name, content, svc);
      if text.None? {
        return Skip, m, r;
      }
      var dates, names := ExtractDatesAndNames(text.value, svc.recognize, svc.find);
      var decision := Categorize(text.value, svc.rank);
      if decision.NoLabel? {
        return Fail, m, r;
      }
      var category := decision.name;
      MoveToCategory(name, category);
      m, r := Move(category, name, content), Report(name, dates, names, category);
      MovedFacts(old(intake), svc, m, r, text.value);
      route := Place(category);
    }

    /** What the batch has done after handling the first entries of the
        listing: BatchInvariant over the store's own intake and sorted tree.
        Contracts of the store's methods state it of the current fields through
        this name, and the invariant itself stays a function of plain values
        that the step lemmas can state without the heap. */
    ghost predicate Progress(
      intake0: map<string, Bytes>, sorted0: Tree, handled: seq<string>,
      moves: seq<Move>, reports: seq<Report>, svc: Services)
      reads this
    {
      BatchInvariant(intake, sorted, intake0, sorted0, handled, moves, reports, svc)
    }

    /** Handles entry i of the listing; fails, changing nothing, when the
        ranking service gives no label for it. */
    method SortNext(
      listing: seq<string>, i: nat, svc: Services, ghost intake0: map<string, Bytes>, ghost sorted0: Tree,
      ghost moves: seq<Move>, reports: seq<Report>)
      returns (failed: bool, ghost moves': seq<Move>, reports': seq<Report>)
      requires i < |listing| && Distinct(listing)
      requires forall n :: n in listing <==> n in intake0
      requires Progress(intake0, sorted0, listing[..i], moves, reports, svc)
      modifies this
      ensures failed ==>
        && listing[i] in intake0 && listing[i] !in NamesOf(moves)
        && RouteOf(listing[i], intake0[listing[i]], svc) == Fail
        && intake == old(intake) && sorted == old(sorted)
        && moves' == moves && reports' == reports
      ensures !failed ==> Progress(intake0, sorted0, listing[..i + 1], moves', reports', svc)
    {
      var name := listing[i];
      NextUnmoved(intake, sorted, intake0, sorted0, listing, i, moves, reports, svc);
      ghost var before, sortedBefore := intake, sorted;
      var route, m, r := SortOne(name, svc);
      failed := route == Fail;
      if route.Place? {
        PlaceStep(before, sortedBefore, intake0, sorted0, listing, i, moves, reports, m, r, svc);
        moves', reports' := moves + [m], reports + [r];
      } else {
        if route == Skip {
          SkipStep(before, sortedBefore, intake0, sorted0, listing, i, moves, reports, svc);
        }
        moves', reports' := moves, reports;
      }
    }

    method ProcessDocuments(svc: Services) returns (reports: seq<Report>, outcome: Outcome, ghost moves: seq<Move>)
      modifies this
      ensures DistinctNames(moves)
      ensures AllPlanned(moves, old(intake), svc)
      ensures AllReported(reports, moves, svc)
      ensures sorted == ApplyMoves(old(sorted), moves)
      ensures outcome.Completed? ==>
        && NamesOf(moves) == (set f | f in old(intake) && KindOf(f) != Unsupported)
        && intake == (old(intake) - NamesOf(moves))[ArchiveName := svc.archive(sorted)]
      ensures outcome.RankingFailed? ==>
        && NamesOf(moves) <= (set f | f in old(intake) && KindOf(f) != Unsupported)
        && outcome.filename in old(intake)
        && outcome.filename !in NamesOf(moves)
        && RouteOf(outcome.filename, old(intake)[outcome.filename], svc) == Fail
        && intake == old(intake) - NamesOf(moves)
    {
      var listing := ListIntake();
      ghost var intake0, sorted0 := intake, sorted;
      reports, moves := [], [];
      var i := 0;
      while i < |listing|
        invariant 0 <= i <= |listing|
        invariant Progress(intake0, sorted0, listing[..i], moves, reports, svc)
      {
        var failed;
        failed, moves, reports := SortNext(listing, i, svc, intake0, sorted0, moves, reports);
        if failed {
          ReadablePrefix(listing, i, intake0);
          outcome := RankingFailed(listing[i]);
          return;
        }
        i := i + 1;
      }
      ReadableNamesAll(listing, intake0);
      intake := intake[ArchiveName := svc.archive(sorted)];
      outcome := Completed;
    }
  }

  /** What a batch has done after handling the listed names `handled`: exactly
      the readable ones among them are moved, each once and as planned, each
      with its report, and the intake and the sorted tree show those moves. */
  ghost predicate BatchInvariant(
    intake: map<string, Bytes>, sorted: Tree, intake0: map<string, Bytes>, sorted0: Tree,
    handled: seq<string>, moves: seq<Move>, reports: seq<Report>, svc: Services)
  {
    && intake == intake0 - NamesOf(moves)
    && sorted == ApplyMoves(sorted0, moves)
    && NamesOf(moves) == ReadableNames(handled)
    && DistinctNames(moves)
    && AllPlanned(moves, intake0, svc)
    && AllReported(reports, moves, svc)
  }

  /** The next listed name is still in the intake, with its original content. */
  lemma NextUnmoved(
    intake: map<string, Bytes>, sorted: Tree, intake0: map<string, Bytes>, sorted0: Tree,
    listing: seq<string>, i: nat, moves: seq<Move>, reports: seq<Report>, svc: Services)
    requires i < |listing| && Distinct(listing)
    requires forall n :: n in listing <==> n in intake0
    requires BatchInvariant(intake, sorted, intake0, sorted0, listing[..i], moves, reports, svc)
    ensures listing[i] in intake0 && listing[i] !in NamesOf(moves)
    ensures listing[i] in intake && intake[listing[i]] == intake0[listing[i]]
  {
    DistinctPrefix(listing, i);
  }

  /** Moving the next listed file extends what the batch has done. */
  lemma PlaceStep(
    intake: map<string, Bytes>, sorted: Tree, intake0: map<string, Bytes>, sorted0: Tree,
    listing: seq<string>, i: nat, moves: seq<Move>, reports: seq<Report>, m: Move, r: Report, svc: Services)
    requires i < |listing| && Distinct(listing)
    requires BatchInvariant(intake, sorted, intake0, sorted0, listing[..i], moves, reports, svc)
    requires m.name == listing[i]
    requires Planned(m, intake, svc) && Reported(r, m, svc)
    ensures BatchInvariant(intake - {m.name}, PlaceFile(sorted, m), intake0, sorted0,
      listing[..i + 1], moves + [m], reports + [r], svc)
  {
    ReadableNamesStep(listing, i);
    DistinctPrefix(listing, i);
    RouteCases(m.name, m.content, svc);
    BatchStep(intake0, intake, sorted0, moves, reports, m, r, svc);
  }

  /** Skipping the next listed file, which selects no reader, changes nothing. */
  lemma SkipStep(
    intake: map<string, Bytes>, sorted: Tree, intake0: map<string, Bytes>, sorted0: Tree,
    listing: seq<string>, i: nat, moves: seq<Move>, reports: seq<Report>, svc: Services)
    requires i < |listing|
    requires BatchInvariant(intake, sorted, intake0, sorted0, listing[..i], moves, reports, svc)
    requires listing[i] in intake && RouteOf(listing[i], intake[listing[i]], svc) == Skip
    ensures BatchInvariant(intake, sorted, intake0, sorted0, listing[..i + 1], moves, reports, svc)
  {
    ReadableNamesStep(listing, i);
    RouteCases(listing[i], intake[listing[i]], svc);
  }

  /** Every move of a batch so far was planned from the original intake. */
  ghost predicate AllPlanned(moves: seq<Move>, intake0: map<string, Bytes>, svc: Services) {
    forall k :: 0 <= k < |moves| ==> Planned(moves[k], intake0, svc)
  }

  /** One report per move, in the same order. */
  ghost predicate AllReported(reports: seq<Report>, moves: seq<Move>, svc: Services) {
    && |reports| == |moves|
    && forall k :: 0 <= k < |moves| ==> Reported(reports[k], moves[k], svc)
  }

  /** Moving one more file keeps the intake equal to the original intake less
      the moved names, and what is known of the earlier moves. */
  lemma BatchStep(
    intake0: map<string, Bytes>, before: map<string, Bytes>, sorted0: Tree,
    moves: seq<Move>, reports: seq<Report>, m: Move, r: Report, svc: Services)
    requires before == intake0 - NamesOf(moves)
    requires m.name !in NamesOf(moves)
    requires Planned(m, before, svc) && Reported(r, m, svc)
    requires DistinctNames(moves)
    requires AllPlanned(moves, intake0, svc) && AllReported(reports, moves, svc)
    ensures before - {m.name} == intake0 - NamesOf(moves + [m])
    ensures NamesOf(moves + [m]) == NamesOf(moves) + {m.name}
    ensures ApplyMoves(sorted0, moves + [m]) == PlaceFile(ApplyMoves(sorted0, moves), m)
    ensures DistinctNames(moves + [m])
    ensures AllPlanned(moves + [m], intake0, svc) && AllReported(reports + [r], moves + [m], svc)
  {
    MovesSnoc(sorted0, moves, m);
    IntakeStep(intake0, NamesOf(moves), m.name);
    DistinctNamesSnoc(moves, m);
    PlannedFromRest(m, intake0, NamesOf(moves), svc);
    AllPlannedSnoc(moves, m, intake0, svc);
    AllReportedSnoc(reports, moves, r, m, svc);
  }

  lemma DistinctNamesSnoc(moves: seq<Move>, m: Move)
    requires DistinctNames(moves) && m.name !in NamesOf(moves)
    ensures DistinctNames(moves + [m])
  {
    assert forall k :: 0 <= k < |moves| ==> moves[k].name in NamesOf(moves);
  }

  /** A move planned from what is left of the intake is planned from the intake. */
  lemma PlannedFromRest(m: Move, intake0: map<string, Bytes>, gone: set<string>, svc: Services)
    requires Planned(m, intake0 - gone, svc)
    ensures Planned(m, intake0, svc)
  {
  }

  lemma AllPlannedSnoc(moves: seq<Move>, m: Move, intake0: map<string, Bytes>, svc: Services)
    requires AllPlanned(moves, intake0, svc) && Planned(m, intake0, svc)
    ensures AllPlanned(moves + [m], intake0, svc)
  {
  }

  lemma AllReportedSnoc(reports: seq<Report>, moves: seq<Move>, r: Report, m: Move, svc: Services)
    requires AllReported(reports, moves, svc) && Reported(r, m, svc)
    ensures AllReported(reports + [r], moves + [m], svc)
  {
  }

  lemma IntakeStep(intake0: map<string, Bytes>, gone: set<string>, name: string)
    ensures (intake0 - gone) - {name} == intake0 - (gone + {name})
  {
  }

  /** After a completed batch every readable file of the intake is gone from it
      and sits in its category folder with its content; any other folder holds
      a file of that name only if it held it before the batch, unchanged; every
      other file is still in the intake, unchanged, except that the archive
      replaces a file of its own name. */
  lemma CompletedBatchLayout(
    intake0: map<string, Bytes>, sorted0: Tree, moves: seq<Move>, svc: Services,
    intake1: map<string, Bytes>, sorted1: Tree, f: string)
    requires DistinctNames(moves)
    requires AllPlanned(moves, intake0, svc)
    requires NamesOf(moves) == (set g | g in intake0 && KindOf(g) != Unsupported)
    requires intake1 == (intake0 - NamesOf(moves))[ArchiveName := svc.archive(sorted1)]
    requires sorted1 == ApplyMoves(sorted0, moves)
    requires f in intake0
    ensures KindOf(f) != Unsupported ==>
      && f != ArchiveName && f !in intake1
      && RouteOf(f, intake0[f], svc).Place?
      && RouteOf(f, intake0[f], svc).category in sorted1
      && f in sorted1[RouteOf(f, intake0[f], svc).category]
      && sorted1[RouteOf(f, intake0[f], svc).category][f] == intake0[f]
    ensures KindOf(f) != Unsupported ==>
      forall c :: c in sorted1 && c != RouteOf(f, intake0[f], svc).category && f in sorted1[c] ==>
        c in sorted0 && f in sorted0[c] && sorted1[c][f] == sorted0[c][f]
    ensures KindOf(f) == Unsupported && f != ArchiveName ==> f in intake1 && intake1[f] == intake0[f]
  {
    if KindOf(f) != Unsupported {
      assert f in NamesOf(moves);
      var k :| 0 <= k < |moves| && moves[k].name == f;
      ApplyMovesLands(sorted0, moves, k);
      ArchiveIsSkipped(intake0[f], svc);
      RouteCases(f, intake0[f], svc);
      assert Planned(moves[k], intake0, svc);
      forall c | c in sorted1 && c != moves[k].category && f in sorted1[c]
        ensures c in sorted0 && f in sorted0[c] && sorted1[c][f] == sorted0[c][f]
      {
        MovedFileInOneFolder(sorted0, moves, k, c);
      }
    }
  }
}

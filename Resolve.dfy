/**
 * The per-file decision of the sorter's main loop: only images are
 * considered; the metadata date comes first; without one, a fuzzy parse
 * of the filename is accepted only when its `%Y%m%d` rendering appears
 * literally in the filename; finally the date must not lie after "now".
 *
 * The image test, the fuzzy date parser and the clock are inputs.  Every
 * exception the main loop catches becomes an `Errored` verdict.
 */
module Resolve {
  import opened Text
  import opened Dates
  import opened ExifDate

  /** What the fuzzy filename parser does with a filename: raise, or return a datetime. */
  datatype FuzzyResult = FuzzyRaises | FuzzyDate(date: DateTime)

  /** The filename fallback: the parser raised (the file is skipped), its date was rejected, or accepted. */
  datatype FilenameLookup = ParserRaised | Rejected | Accepted(date: DateTime)

  datatype SkipReason = FuzzyParserRaised | Unresolved | InFuture

  datatype ErrorReason =
    | MetadataError(error: ExifError)   // raised inside get_exif_creation_date
    | NaiveAwareComparison              // TypeError comparing an aware date with the naive now

  /** The verdict for one walked file. */
  datatype Verdict =
    | NotAnImage
    | Skipped(why: SkipReason)
    | Errored(reason: ErrorReason)
    | Place(date: DateTime)

  /** The fuzzy parse of the filename, kept only when its compact rendering occurs in the filename. */
  function FilenameDate(name: string, fuzzy: string -> FuzzyResult): FilenameLookup {
    match fuzzy(name)
    case FuzzyRaises => ParserRaised
    case FuzzyDate(d) => if Contains(name, CompactDate(d)) then Accepted(d) else Rejected
  }

  /** `creation_date > datetime.now()`, with the naive `now` of the running clock. */
  function Gate(d: DateTime, now: DateTime): (v: Verdict)
    requires !now.Aware()
  {
    if d.Aware() then Errored(NaiveAwareComparison)
    else if LaterThan(d, now) then Skipped(InFuture)
    else Place(d)
  }

  /** The body of the main loop up to the choice of a date. */
  function ResolveDate(isImage: bool, exif: ExifLookup, name: string,
                       fuzzy: string -> FuzzyResult, now: DateTime): Verdict
    requires !now.Aware()
  {
    if !isImage then NotAnImage
    else match exif
      case Raises(e) => Errored(MetadataError(e))
      case Found(d) => Gate(d, now)
      case NoDate =>
        match FilenameDate(name, fuzzy)
        case ParserRaised => Skipped(FuzzyParserRaised)
        case Rejected => Skipped(Unresolved)
        case Accepted(d) => Gate(d, now)
  }

  // ---------------------------------------------------------------------------
  // Properties

  /** An accepted filename date shows up, as eight digits, at some position of the filename. */
  lemma AcceptedOccursInName(name: string, fuzzy: string -> FuzzyResult)
    requires FilenameDate(name, fuzzy).Accepted?
    ensures var d := FilenameDate(name, fuzzy).date;
      d == fuzzy(name).date && |CompactDate(d)| == 8 &&
      exists k: nat :: OccursAt(name, CompactDate(d), k)
  {
    var d := FilenameDate(name, fuzzy).date;
    ContainsIff(name, CompactDate(d), 0);
  }

  /** A file is placed exactly when it is an image whose chosen date is naive and not after now. */
  lemma PlacedIff(isImage: bool, exif: ExifLookup, name: string, fuzzy: string -> FuzzyResult,
                  now: DateTime, d: DateTime)
    requires !now.Aware()
    ensures ResolveDate(isImage, exif, name, fuzzy, now) == Place(d) <==>
      && isImage
      && (exif == Found(d) || (exif == NoDate && FilenameDate(name, fuzzy) == Accepted(d)))
      && !d.Aware()
      && !LaterThan(d, now)
  {
  }

  /** A metadata date wins: the filename and the fuzzy parser are then irrelevant. */
  lemma MetadataWins(isImage: bool, d: DateTime, name1: string, fuzzy1: string -> FuzzyResult,
                     name2: string, fuzzy2: string -> FuzzyResult, now: DateTime)
    requires !now.Aware()
    ensures ResolveDate(isImage, Found(d), name1, fuzzy1, now) == ResolveDate(isImage, Found(d), name2, fuzzy2, now)
  {
  }

  /** The gate is strict: a date equal to now passes, one strictly after now is skipped. */
  lemma GateBoundary(d: DateTime, now: DateTime)
    requires !now.Aware() && !d.Aware()
    ensures SameInstant(d, now) ==> Gate(d, now) == Place(d)
    ensures LaterThan(d, now) ==> Gate(d, now) == Skipped(InFuture)
  {
    LaterThanIsStrictTotalOrder(d, now, now);
  }

  /** A timezone-aware date, from either source, never gets placed: comparing it with now raises. */
  lemma AwareDateErrors(isImage: bool, exif: ExifLookup, name: string, fuzzy: string -> FuzzyResult, now: DateTime)
    requires !now.Aware() && isImage
    requires (exif.Found? && exif.date.Aware()) ||
             (exif == NoDate && FilenameDate(name, fuzzy).Accepted? && FilenameDate(name, fuzzy).date.Aware())
    ensures ResolveDate(isImage, exif, name, fuzzy, now) == Errored(NaiveAwareComparison)
  {
  }

  /**
   * An image whose exiftool output is a Create Date line with a "+HH:MM"
   * zone is never placed: the metadata date is aware, and comparing it
   * with the naive now raises.
   */
  lemma ZoneSuffixedMetadataErrors(caption: string, d: DateTime, h: nat, m: nat,
                                   name: string, fuzzy: string -> FuzzyResult, now: DateTime)
    requires !now.Aware()
    requires Contains(caption, CreateDateTag) && ':' !in caption && '\n' !in caption
    requires !d.Aware() && d.micro == 0 && h < 24 && m < 60
    ensures var out := Decoded(caption + ValueSeparator + (ExifText(d) + ZoneText(h, m)));
      ResolveDate(true, ExifCreationDate(out), name, fuzzy, now) == Errored(NaiveAwareComparison)
  {
    ZoneSuffixedOutputDate(caption, d, h, m);
  }

  /** The 15 June 2023 example: with no metadata date, "IMG_20230615_beach.jpg" resolves to the parser's date. */
  lemma FilenameExample(name: string, fuzzy: string -> FuzzyResult, now: DateTime)
    requires name == "IMG_20230615_beach.jpg"
    requires fuzzy(name).FuzzyDate? && !now.Aware()
    requires var d := fuzzy(name).date; d.year == 2023 && d.month == 6 && d.day == 15 && !d.Aware()
    requires !LaterThan(fuzzy(name).date, now)
    ensures ResolveDate(true, NoDate, name, fuzzy, now) == Place(fuzzy(name).date)
  {
    var d := fuzzy(name).date;
    assert CompactDate(d) == "20230615" by {
      Pad2023();
    }
    assert OccursAt(name, "20230615", 4);
    ContainsIff(name, "20230615", 4);
  }
}

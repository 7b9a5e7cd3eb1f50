/**
 * The tasting record: its three closed attribute enums and their display
 * names, the two validating constructors and the nine-line plaintext block
 * an entry renders to.
 */
module Entry {
  import opened Wrappers
  import opened Decimal
  import opened Text
  import opened DateTimeFormat

  /** Rust's `u8`: the rating's storage type. */
  newtype u8 = x: int | 0 <= x < 256

  datatype ProcessingMethod = Washed | Natural | PulpedNatural | AnerobicFermentation

  datatype Roast = Light | Medium | Dark

  datatype Preparation = Americano | Cortado | Drip | Espresso | Latte | Pourover

  /**
   * One tasting record. Its fields are public in the source, so the 1..10
   * bound on `rating` is a property of the values the constructors return,
   * not of the type.
   */
  datatype CoffeeEntry = CoffeeEntry(
    timestamp: DateTime,
    brand: string,
    name: string,
    origin: string,
    processing: ProcessingMethod,
    roast: Roast,
    preparation: Preparation,
    rating: u8)

  // Display names

  function ProcessingName(p: ProcessingMethod): (s: string)
    ensures |s| > 0 && SingleLine(s)
  {
    match p
    case Washed => "Washed"
    case Natural => "Natural"
    case PulpedNatural => "Pulped Natural"
    case AnerobicFermentation => "Anerobic Fermentation"
  }

  function RoastName(r: Roast): (s: string)
    ensures |s| > 0 && SingleLine(s)
  {
    match r
    case Light => "Light"
    case Medium => "Medium"
    case Dark => "Dark"
  }

  function PreparationName(p: Preparation): (s: string)
    ensures |s| > 0 && SingleLine(s)
  {
    match p
    case Americano => "Americano"
    case Cortado => "Cortado"
    case Drip => "Drip"
    case Espresso => "Espresso"
    case Latte => "Latte"
    case Pourover => "Pourover"
  }

  /** Two processing methods display alike exactly when they are the same method. */
  lemma ProcessingNameInjective(p: ProcessingMethod, q: ProcessingMethod)
    ensures ProcessingName(p) == ProcessingName(q) <==> p == q
  {
  }

  /** Two roasts display alike exactly when they are the same roast. */
  lemma RoastNameInjective(r: Roast, s: Roast)
    ensures RoastName(r) == RoastName(s) <==> r == s
  {
  }

  /** Two preparations display alike exactly when they are the same preparation. */
  lemma PreparationNameInjective(p: Preparation, q: Preparation)
    ensures PreparationName(p) == PreparationName(q) <==> p == q
  {
  }

  // Construction

  const RatingErrorPrefix: string := "Rating must be between 1 and 10, got "

  /** The one business rule: `(1..=10).contains(&rating)`. */
  predicate ValidRating(rating: u8) {
    1 <= rating <= 10
  }

  /** The rejection message: the fixed prefix, then the offending rating in decimal. */
  function RatingError(rating: u8): (msg: string)
    ensures RatingErrorPrefix <= msg
    ensures var tail := msg[|RatingErrorPrefix|..];
      |tail| >= 1 && AllDigits(tail) && (|tail| > 1 ==> tail[0] != '0') && DigitsValue(tail) == rating as nat
  {
    var digits := NatToString(rating as nat);
    var msg := RatingErrorPrefix + digits;
    assert msg[|RatingErrorPrefix|..] == digits;
    NatToStringRoundTrip(rating as nat);
    msg
  }

  /** `CoffeeEntry::new`, with the reading of the local clock passed in as `now`. */
  function New(now: DateTime, brand: string, name: string, origin: string,
               processing: ProcessingMethod, roast: Roast, preparation: Preparation,
               rating: u8): (r: Result<CoffeeEntry, string>)
    ensures r.Ok? <==> 1 <= rating <= 10
    ensures r.Ok? ==> r.value == CoffeeEntry(now, brand, name, origin, processing, roast, preparation, rating)
    ensures r.Err? ==> r.error == RatingErrorPrefix + NatToString(rating as nat)
  {
    if !ValidRating(rating) then Err(RatingError(rating))
    else Ok(CoffeeEntry(now, brand, name, origin, processing, roast, preparation, rating))
  }

  /** `CoffeeEntry::with_timestamp`: the same rule, with the timestamp given by the caller. */
  function WithTimestamp(timestamp: DateTime, brand: string, name: string, origin: string,
                         processing: ProcessingMethod, roast: Roast, preparation: Preparation,
                         rating: u8): (r: Result<CoffeeEntry, string>)
    ensures r.Ok? <==> 1 <= rating <= 10
    ensures r.Ok? ==> r.value == CoffeeEntry(timestamp, brand, name, origin, processing, roast, preparation, rating)
    ensures r.Err? ==> r.error == RatingErrorPrefix + NatToString(rating as nat)
  {
    if !ValidRating(rating) then Err(RatingError(rating))
    else Ok(CoffeeEntry(timestamp, brand, name, origin, processing, roast, preparation, rating))
  }

  /** Both constructors apply the identical rule; on the same instant they give the same result. */
  lemma NewAgreesWithTimestamp(now: DateTime, brand: string, name: string, origin: string,
                               processing: ProcessingMethod, roast: Roast, preparation: Preparation,
                               rating: u8)
    ensures New(now, brand, name, origin, processing, roast, preparation, rating).Ok?
        == WithTimestamp(now, brand, name, origin, processing, roast, preparation, rating).Ok?
    ensures New(now, brand, name, origin, processing, roast, preparation, rating)
         == WithTimestamp(now, brand, name, origin, processing, roast, preparation, rating)
  {
  }

  /** The messages for the ratings just outside the bound. */
  lemma RatingErrorExamples()
    ensures RatingError(0) == "Rating must be between 1 and 10, got 0"
    ensures RatingError(11) == "Rating must be between 1 and 10, got 11"
    ensures RatingError(255) == "Rating must be between 1 and 10, got 255"
  {
  }

  // Rendering

  /** `to_plaintext`: the fixed nine-line block, each line ended by '\n'. */
  function ToPlaintext(e: CoffeeEntry): string
  {
    Format(e.timestamp) + "\n"
      + ("Brand: " + e.brand) + "\n"
      + ("Name: " + e.name) + "\n"
      + ("Origin: " + e.origin) + "\n"
      + ("Processing: " + ProcessingName(e.processing)) + "\n"
      + ("Roast: " + RoastName(e.roast)) + "\n"
      + ("Preparation: " + PreparationName(e.preparation)) + "\n"
      + ("Rating: " + NatToString(e.rating as nat) + "/10") + "\n"
      + "---" + "\n"
  }

  /** The nine lines of an entry's block, without their line breaks. */
  function EntryLines(e: CoffeeEntry): (ls: seq<string>)
    ensures |ls| == 9
  {
    [ Format(e.timestamp),
      "Brand: " + e.brand,
      "Name: " + e.name,
      "Origin: " + e.origin,
      "Processing: " + ProcessingName(e.processing),
      "Roast: " + RoastName(e.roast),
      "Preparation: " + PreparationName(e.preparation),
      "Rating: " + NatToString(e.rating as nat) + "/10",
      "---" ]
  }

  /** The free-text fields hold no line break, so each stays on its labelled line. */
  predicate SingleLineFields(e: CoffeeEntry) {
    SingleLine(e.brand) && SingleLine(e.name) && SingleLine(e.origin)
  }

  /** Nine joined lines, written out as one left-to-right concatenation. */
  lemma UnlinesNine(ls: seq<string>)
    requires |ls| == 9
    ensures Unlines(ls) == ls[0] + "\n" + ls[1] + "\n" + ls[2] + "\n" + ls[3] + "\n" + ls[4] + "\n"
      + ls[5] + "\n" + ls[6] + "\n" + ls[7] + "\n" + ls[8] + "\n"
  {
    assert Unlines(ls[..0]) == [];
    UnlinesSnoc(ls, 0);
    assert Unlines(ls[..1]) == ls[0] + "\n";
    UnlinesSnoc(ls, 1);
    UnlinesSnoc(ls, 2);
    UnlinesSnoc(ls, 3);
    UnlinesSnoc(ls, 4);
    UnlinesSnoc(ls, 5);
    UnlinesSnoc(ls, 6);
    UnlinesSnoc(ls, 7);
    UnlinesSnoc(ls, 8);
    assert ls[..9] == ls;
  }

  /** The block is exactly the nine labelled lines, in order, each ended by '\n'. */
  lemma PlaintextIsEntryLines(e: CoffeeEntry)
    ensures ToPlaintext(e) == Unlines(EntryLines(e))
  {
    UnlinesNine(EntryLines(e));
  }

  /** The block opens with the timestamp line and closes with the "---" separator line. */
  lemma PlaintextEnds(e: CoffeeEntry)
    ensures Format(e.timestamp) + "\n" <= ToPlaintext(e)
    ensures var s := ToPlaintext(e); |s| >= 4 && s[|s| - 4..] == "---\n" && s[|s| - 1] == '\n'
  {
    PlaintextIsEntryLines(e);
    UnlinesEnds(EntryLines(e));
  }

  /**
   * The fixed labels hold no line break. Stated apart from the lemmas that
   * use it so that their proofs need not re-examine each literal.
   */
  lemma LabelsSingle()
    ensures SingleLine("Brand: ") && SingleLine("Name: ") && SingleLine("Origin: ")
    ensures SingleLine("Processing: ") && SingleLine("Roast: ") && SingleLine("Preparation: ")
    ensures SingleLine("Rating: ") && SingleLine("/10")
  {
  }

  /** Every line of the block is a single line when the free-text fields are. */
  lemma EntryLinesSingle(e: CoffeeEntry)
    requires SingleLineFields(e)
    ensures forall k :: 0 <= k < |EntryLines(e)| ==> SingleLine(EntryLines(e)[k])
  {
    var digits := NatToString(e.rating as nat);
    LabelsSingle();
    SingleLineAppend("Brand: ", e.brand);
    SingleLineAppend("Name: ", e.name);
    SingleLineAppend("Origin: ", e.origin);
    SingleLineAppend("Processing: ", ProcessingName(e.processing));
    SingleLineAppend("Roast: ", RoastName(e.roast));
    SingleLineAppend("Preparation: ", PreparationName(e.preparation));
    DigitsSingleLine(digits);
    SingleLineAppend("Rating: ", digits);
    SingleLineAppend("Rating: " + digits, "/10");
  }

  /**
   * When the free-text fields are single lines, reading the block back line
   * by line gives the nine labelled lines: the block is nine lines long and
   * every field sits on its own labelled line.
   */
  lemma PlaintextLines(e: CoffeeEntry)
    requires SingleLineFields(e)
    ensures Lines(ToPlaintext(e)) == EntryLines(e)
    ensures |Lines(ToPlaintext(e))| == 9
  {
    EntryLinesSingle(e);
    LinesUnlines(EntryLines(e));
    PlaintextIsEntryLines(e);
  }

  /** The reference example record: a pulped-natural, medium-roast espresso rated 9. */
  function ExampleEntry(): CoffeeEntry {
    CoffeeEntry(DateTime(2025, 1, 15, 14, 30, 0), "Intelligentsia", "Black Cat", "Colombia",
                PulpedNatural, Medium, Espresso, 9)
  }

  /** The nine lines of the reference example, with every field in place. */
  lemma ExampleLines()
    ensures EntryLines(ExampleEntry()) == ["2025-01-15 14:30:00", "Brand: Intelligentsia",
        "Name: Black Cat", "Origin: Colombia", "Processing: Pulped Natural", "Roast: Medium",
        "Preparation: Espresso", "Rating: 9/10", "---"]
  {
    FormatExample();
    ExampleTextFields();
    ExampleChoiceFields();
  }

  /**
   * The example's free-text fields behind their labels. This and the next
   * lemma keep the literal-by-literal comparisons out of `ExampleLines`,
   * where, together with the unfolded rendering, they slow the proof down.
   */
  lemma ExampleTextFields()
    ensures "Brand: " + "Intelligentsia" == "Brand: Intelligentsia"
    ensures "Name: " + "Black Cat" == "Name: Black Cat"
    ensures "Origin: " + "Colombia" == "Origin: Colombia"
  {
  }

  /** The example's enumerated fields and rating behind their labels. */
  lemma ExampleChoiceFields()
    ensures "Processing: " + ProcessingName(PulpedNatural) == "Processing: Pulped Natural"
    ensures "Roast: " + RoastName(Medium) == "Roast: Medium"
    ensures "Preparation: " + PreparationName(Espresso) == "Preparation: Espresso"
    ensures "Rating: " + NatToString(9) + "/10" == "Rating: 9/10"
  {
    assert NatToString(9) == "9";
  }

  /** The rendering of the reference example: exactly these nine lines, each ended by '\n'. */
  lemma PlaintextExample()
    ensures ToPlaintext(ExampleEntry()) == Unlines(["2025-01-15 14:30:00", "Brand: Intelligentsia",
        "Name: Black Cat", "Origin: Colombia", "Processing: Pulped Natural", "Roast: Medium",
        "Preparation: Espresso", "Rating: 9/10", "---"])
  {
    PlaintextIsEntryLines(ExampleEntry());
    ExampleLines();
  }
}

/**
 * The plugin's data model (models.py): the two closed enumerations and the
 * validated trial `Option`.
 */
module Models {
  import opened Wrappers
  import opened Text

  /** Longest option text accepted, counted in characters after stripping. */
  const MAX_OPTION_TEXT_LENGTH: nat := 200

  /** The speaking persona of a trial image. */
  datatype Character = EMA | HIRO {
    /** The enumeration member's string value. */
    function Value(): string {
      match this
      case EMA => "Ema"
      case HIRO => "Hiro"
    }
  }

  /** The kind of a trial option: four plain kinds and thirteen magic kinds. */
  datatype Statement =
    | AGREEMENT
    | DOUBT
    | PERJURY
    | REFUTATION
    | MAGIC_CHIYUSAISEI
    | MAGIC_EKITAISOUSA
    | MAGIC_FUYUU
    | MAGIC_GENSHI
    | MAGIC_HAKKA
    | MAGIC_IREKAWARI
    | MAGIC_KAIRIKI
    | MAGIC_MAJOGOROSHI
    | MAGIC_MONOMANE
    | MAGIC_SENNOU
    | MAGIC_SENRIGAN
    | MAGIC_SHINIMODORI
    | MAGIC_SHISENYUUDOU
  {
    /** The enumeration member's string value. */
    function Value(): string {
      match this
      case AGREEMENT => "Agreement"
      case DOUBT => "Doubt"
      case PERJURY => "Perjury"
      case REFUTATION => "Refutation"
      case MAGIC_CHIYUSAISEI => "Magic Chiyu & Saisei"
      case MAGIC_EKITAISOUSA => "Magic Ekitai Sousa"
      case MAGIC_FUYUU => "Magic Fuyuu"
      case MAGIC_GENSHI => "Magic Genshi"
      case MAGIC_HAKKA => "Magic Hakka"
      case MAGIC_IREKAWARI => "Magic Irekawari"
      case MAGIC_KAIRIKI => "Magic Kairiki"
      case MAGIC_MAJOGOROSHI => "Magic Majo Goroshi"
      case MAGIC_MONOMANE => "Magic Monomane"
      case MAGIC_SENNOU => "Magic Sennou"
      case MAGIC_SENRIGAN => "Magic Senrigan"
      case MAGIC_SHINIMODORI => "Magic Shini Modori"
      case MAGIC_SHISENYUUDOU => "Magic Shisen Yuudou"
    }

    /** One of the thirteen magic kinds rather than a plain kind. */
    predicate IsMagic() {
      !(AGREEMENT? || DOUBT? || PERJURY? || REFUTATION?)
    }
  }

  /** Every `Character`, in declaration order. */
  const ALL_CHARACTERS: seq<Character> := [EMA, HIRO]

  /** Every `Statement`, in declaration order. */
  const ALL_STATEMENTS: seq<Statement> := [
    AGREEMENT, DOUBT, PERJURY, REFUTATION,
    MAGIC_CHIYUSAISEI, MAGIC_EKITAISOUSA, MAGIC_FUYUU, MAGIC_GENSHI,
    MAGIC_HAKKA, MAGIC_IREKAWARI, MAGIC_KAIRIKI, MAGIC_MAJOGOROSHI,
    MAGIC_MONOMANE, MAGIC_SENNOU, MAGIC_SENRIGAN, MAGIC_SHINIMODORI,
    MAGIC_SHISENYUUDOU
  ]

  /** `Character` has exactly two members, with distinct string values. */
  lemma CharacterMembers()
    ensures |ALL_CHARACTERS| == 2
    ensures forall c: Character :: c in ALL_CHARACTERS
    ensures forall i, j :: 0 <= i < j < |ALL_CHARACTERS| ==>
      ALL_CHARACTERS[i].Value() != ALL_CHARACTERS[j].Value()
  {
    forall c: Character ensures c in ALL_CHARACTERS {
      assert ALL_CHARACTERS[if c.EMA? then 0 else 1] == c;
    }
  }

  /** `Statement` has exactly seventeen members, thirteen of them magic, with
      distinct string values. */
  lemma StatementMembers()
    ensures |ALL_STATEMENTS| == 17
    ensures forall s: Statement :: s in ALL_STATEMENTS
    ensures forall i :: 0 <= i < |ALL_STATEMENTS| ==> (ALL_STATEMENTS[i].IsMagic() <==> i >= 4)
    ensures forall a: Statement, b: Statement :: a.Value() == b.Value() ==> a == b
  {
    forall s: Statement ensures s in ALL_STATEMENTS {
      match s
      case AGREEMENT => assert ALL_STATEMENTS[0] == s;
      case DOUBT => assert ALL_STATEMENTS[1] == s;
      case PERJURY => assert ALL_STATEMENTS[2] == s;
      case REFUTATION => assert ALL_STATEMENTS[3] == s;
      case MAGIC_CHIYUSAISEI => assert ALL_STATEMENTS[4] == s;
      case MAGIC_EKITAISOUSA => assert ALL_STATEMENTS[5] == s;
      case MAGIC_FUYUU => assert ALL_STATEMENTS[6] == s;
      case MAGIC_GENSHI => assert ALL_STATEMENTS[7] == s;
      case MAGIC_HAKKA => assert ALL_STATEMENTS[8] == s;
      case MAGIC_IREKAWARI => assert ALL_STATEMENTS[9] == s;
      case MAGIC_KAIRIKI => assert ALL_STATEMENTS[10] == s;
      case MAGIC_MAJOGOROSHI => assert ALL_STATEMENTS[11] == s;
      case MAGIC_MONOMANE => assert ALL_STATEMENTS[12] == s;
      case MAGIC_SENNOU => assert ALL_STATEMENTS[13] == s;
      case MAGIC_SENRIGAN => assert ALL_STATEMENTS[14] == s;
      case MAGIC_SHINIMODORI => assert ALL_STATEMENTS[15] == s;
      case MAGIC_SHISENYUUDOU => assert ALL_STATEMENTS[16] == s;
    }
  }

  /** One option of a trial image. */
  datatype Option = Option(statement: Statement, text: string)

  /** Why an `Option` could not be built. */
  datatype OptionError = EmptyText | TextTooLong

  /** What every constructed `Option` satisfies: its text is non-empty, at
      most `MAX_OPTION_TEXT_LENGTH` characters and carries no surrounding
      whitespace. */
  predicate ValidOption(o: Option) {
    o.text != "" && |o.text| <= MAX_OPTION_TEXT_LENGTH && Trimmed(o.text)
  }

  /** Construction of an `Option` with its validation: empty or
      whitespace-only text is refused first, then text longer than the limit
      once stripped; the stored text is the stripped input. */
  function NewOption(statement: Statement, text: string): (r: Result<Option, OptionError>)
    ensures r == Err(EmptyText) <==> AllSpace(text)
    ensures r == Err(TextTooLong) <==> !AllSpace(text) && |Strip(text)| > MAX_OPTION_TEXT_LENGTH
    ensures r.Ok? ==> r.value == Option(statement, Strip(text)) && ValidOption(r.value)
  {
    if text == "" || Strip(text) == "" then
      Err(EmptyText)
    else
      var stripped := Strip(text);
      if |stripped| > MAX_OPTION_TEXT_LENGTH then Err(TextTooLong)
      else Ok(Option(statement, stripped))
  }

  /** Building an `Option` from a valid one's fields gives it back, and only
      valid options come back unchanged: construction is idempotent. */
  lemma NewOptionRoundTrip(o: Option)
    ensures NewOption(o.statement, o.text) == Ok(o) <==> ValidOption(o)
  {
    if ValidOption(o) {
      StripTrimmed(o.text);
    }
  }

  /** Construction never changes the statement kind, and rebuilding from a
      constructed option reproduces it. */
  lemma NewOptionIdempotent(statement: Statement, text: string)
    ensures NewOption(statement, text).Ok? ==>
      var o := NewOption(statement, text).value;
      o.statement == statement && NewOption(o.statement, o.text) == Ok(o)
  {
    if NewOption(statement, text).Ok? {
      NewOptionRoundTrip(NewOption(statement, text).value);
    }
  }

  /** Whitespace-only text is refused as empty whatever its length. */
  lemma NewOptionBlankExamples()
    ensures NewOption(AGREEMENT, "") == Err(EmptyText)
    ensures NewOption(AGREEMENT, "   ") == Err(EmptyText)
    ensures NewOption(DOUBT, seq(300, _ => ' ')) == Err(EmptyText)
  {
    assert AllSpace("   ");
  }

  /** The length limit is inclusive: 200 characters pass, 201 do not, and
      surrounding whitespace is not counted. */
  lemma NewOptionLengthExamples()
    ensures NewOption(AGREEMENT, seq(200, _ => 'x')).Ok?
    ensures NewOption(AGREEMENT, seq(201, _ => 'x')) == Err(TextTooLong)
    ensures NewOption(AGREEMENT, " " + seq(200, _ => 'x') + " ").Ok?
  {
    var x200, x201 := seq(200, _ => 'x'), seq(201, _ => 'x');
    StripTrimmed(x200);
    StripTrimmed(x201);
    assert x201[0] == 'x';
    StripMiddle(" ", x200, " ");
  }

  /** The stored text is the stripped input. */
  lemma NewOptionStripsExample()
    ensures NewOption(AGREEMENT, "  ok  ") == Ok(Option(AGREEMENT, "ok"))
  {
    StripMiddle("  ", "ok", "  ");
    assert "  " + "ok" + "  " == "  ok  ";
  }
}

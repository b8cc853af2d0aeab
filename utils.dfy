/**
 * Conversion of user input into the closed enumerations (utils.py): every
 * input is normalised first, then looked up in a fixed table; anything that
 * is not in the table is an error, never a default.
 */
module Utils {
  import opened Wrappers
  import opened Text
  import opened Models

  /** Why user input could not be converted; one constructor per distinct
      `ValueError` the conversions raise, carrying the raw input where the
      message quotes it. */
  datatype LookupError =
    | EmptyMagicName
    | BlankMagicName
    | UnknownMagicName(name: string)
    | MissingMagicName
    | UnknownStatementKind(kind: string)
    | EmptyCharacterName
    | BlankCharacterName
    | UnknownCharacterName(name: string)

  /** Input normalisation: strip, turn full-width spaces into plain ones, and
      collapse every run of whitespace into one space. The result is in
      single-spaced form and has exactly the input's tokens. */
  function NormalizeText(text: string): (r: string)
    ensures SingleSpaced(r)
    ensures Split(r) == Split(text)
    ensures r == "" <==> AllSpace(text)
  {
    if text == "" then
      text
    else
      var stripped := Strip(text);
      var halfWidth := Replace(stripped, FULL_WIDTH_SPACE, ' ');
      SplitReplaceSpace(stripped, FULL_WIDTH_SPACE, ' ');
      SplitStrip(text);
      SplitEmpty(text);
      JoinShape(Split(text));
      SplitJoin(Split(text));
      JoinWithSpace(Split(halfWidth))
  }

  /** Normalising is joining the input's tokens with single spaces. */
  lemma NormalizeTextJoinsTokens(text: string)
    ensures NormalizeText(text) == JoinWithSpace(Split(text))
  {
    if text != "" {
      SplitReplaceSpace(Strip(text), FULL_WIDTH_SPACE, ' ');
      SplitStrip(text);
    }
  }

  /** Normalising twice is normalising once. */
  lemma NormalizeTextIdempotent(text: string)
    ensures NormalizeText(NormalizeText(text)) == NormalizeText(text)
  {
    var r := NormalizeText(text);
    NormalizeTextJoinsTokens(text);
    NormalizeTextJoinsTokens(r);
  }

  /** Two inputs normalise alike exactly when they have the same tokens,
      however much and whatever kind of whitespace separates them. */
  lemma NormalizeTextSameTokens(a: string, b: string)
    ensures NormalizeText(a) == NormalizeText(b) <==> Split(a) == Split(b)
  {
    NormalizeTextJoinsTokens(a);
    NormalizeTextJoinsTokens(b);
  }

  /** A single token surrounded by whitespace normalises to the token. */
  lemma NormalizeTextPadded(a: string, w: string, b: string)
    requires AllSpace(a) && IsWord(w) && AllSpace(b)
    ensures NormalizeText(a + w + b) == w
  {
    var s := a + w + b;
    NormalizeTextJoinsTokens(s);
    StripMiddle(a, w, b);
    SplitStrip(s);
    SplitWord(w);
    assert JoinWithSpace([w]) == w;
  }

  // ---------------------------------------------------------------------
  // Magic statements

  /** The table from a witch's name to her magic statement. */
  const MAGIC_STATEMENTS: map<string, Statement> := map[
    "梅露露" := MAGIC_CHIYUSAISEI,
    "诺亚" := MAGIC_EKITAISOUSA,
    "汉娜" := MAGIC_FUYUU,
    "奈叶香" := MAGIC_GENSHI,
    "亚里沙" := MAGIC_HAKKA,
    "米莉亚" := MAGIC_IREKAWARI,
    "雪莉" := MAGIC_KAIRIKI,
    "艾玛" := MAGIC_MAJOGOROSHI,
    "玛格" := MAGIC_MONOMANE,
    "安安" := MAGIC_SENNOU,
    "可可" := MAGIC_SENRIGAN,
    "希罗" := MAGIC_SHINIMODORI,
    "蕾雅" := MAGIC_SHISENYUUDOU
  ]

  /** The inverse of `MAGIC_STATEMENTS`: the name that selects a magic kind. */
  function MagicNameOf(s: Statement): (r: string)
    requires s.IsMagic()
    ensures IsWord(r)
  {
    match s
    case MAGIC_CHIYUSAISEI => "梅露露"
    case MAGIC_EKITAISOUSA => "诺亚"
    case MAGIC_FUYUU => "汉娜"
    case MAGIC_GENSHI => "奈叶香"
    case MAGIC_HAKKA => "亚里沙"
    case MAGIC_IREKAWARI => "米莉亚"
    case MAGIC_KAIRIKI => "雪莉"
    case MAGIC_MAJOGOROSHI => "艾玛"
    case MAGIC_MONOMANE => "玛格"
    case MAGIC_SENNOU => "安安"
    case MAGIC_SENRIGAN => "可可"
    case MAGIC_SHINIMODORI => "希罗"
    case MAGIC_SHISENYUUDOU => "蕾雅"
  }

  /** The magic table is a bijection between the thirteen names and the
      thirteen magic kinds, and `MagicNameOf` is its inverse. */
  lemma MagicTableBijective()
    ensures forall name :: name in MAGIC_STATEMENTS ==>
      MAGIC_STATEMENTS[name].IsMagic() && MagicNameOf(MAGIC_STATEMENTS[name]) == name
    ensures forall s: Statement :: s.IsMagic() ==>
      MagicNameOf(s) in MAGIC_STATEMENTS && MAGIC_STATEMENTS[MagicNameOf(s)] == s
  {
  }

  /** Conversion of a witch's name into her magic statement. */
  function GetMagicStatement(text: string): (r: Result<Statement, LookupError>)
    ensures text == "" ==> r == Err(EmptyMagicName)
    ensures text != "" && AllSpace(text) ==> r == Err(BlankMagicName)
    ensures !AllSpace(text) && r.Err? ==> r == Err(UnknownMagicName(text))
    ensures r.Ok? ==> r.value.IsMagic()
  {
    if text == "" then
      Err(EmptyMagicName)
    else
      var normalizedText := NormalizeText(text);
      if normalizedText == "" then
        Err(BlankMagicName)
      else if normalizedText in MAGIC_STATEMENTS then
        MagicTableBijective();
        Ok(MAGIC_STATEMENTS[normalizedText])
      else
        Err(UnknownMagicName(text))
  }

  /** A name selects a magic kind exactly when it normalises to that kind's
      name: no prefixes, no case folding, nothing but whitespace forgiven. */
  lemma GetMagicStatementExact(text: string, s: Statement)
    ensures GetMagicStatement(text) == Ok(s) <==> s.IsMagic() && NormalizeText(text) == MagicNameOf(s)
  {
    MagicTableBijective();
  }

  /** A witch's name selects her magic kind whatever whitespace surrounds
      it, full-width spaces included. */
  lemma MagicNamePadded(a: string, s: Statement, b: string)
    requires AllSpace(a) && s.IsMagic() && AllSpace(b)
    ensures GetMagicStatement(a + MagicNameOf(s) + b) == Ok(s)
  {
    NormalizeTextPadded(a, MagicNameOf(s), b);
    GetMagicStatementExact(a + MagicNameOf(s) + b, s);
  }

  /** A name outside the table is refused, quoting the raw input.
      The name arrives as a parameter fixed by the precondition, rather than
      as a literal in the postcondition, so that the verifier does not
      unfold `Strip` and `Split` character by character on a literal. */
  lemma MagicNameUnknownExample(name: string)
    requires name == "不存在"
    ensures GetMagicStatement(name) == Err(UnknownMagicName(name))
  {
    NormalizeTextPadded("", name, "");
    assert "" + name + "" == name;
    assert name !in MAGIC_STATEMENTS;
  }

  /** Empty and whitespace-only names are refused with their own errors. */
  lemma MagicNameBlankExample()
    ensures GetMagicStatement("") == Err(EmptyMagicName)
    ensures GetMagicStatement("  ") == Err(BlankMagicName)
  {
    assert AllSpace("  ");
  }

  // ---------------------------------------------------------------------
  // Statements

  /** The kind keyword that introduces a statement in a trial option. */
  function KindNameOf(s: Statement): (r: string)
    ensures IsWord(r)
  {
    match s
    case AGREEMENT => "赞同"
    case DOUBT => "疑问"
    case PERJURY => "伪证"
    case REFUTATION => "反驳"
    case _ => "魔法"
  }

  /** The keywords `GetStatement` accepts once normalised. */
  const STATEMENT_KINDS: set<string> := {"赞同", "疑问", "伪证", "反驳", "魔法"}

  /** The `match` on the normalised kind keyword inside `GetStatement`;
      `statement` is the raw keyword, quoted by the error. */
  function MatchStatementKind(kind: string, statement: string, arg: Optional<string>): (r: Result<Statement, LookupError>)
    ensures kind !in STATEMENT_KINDS ==> r == Err(UnknownStatementKind(statement))
    ensures kind == "魔法" && (arg.None? || AllSpace(arg.value)) ==> r == Err(MissingMagicName)
    ensures kind == "魔法" && arg.Some? && !AllSpace(arg.value) ==> r == GetMagicStatement(arg.value)
  {
    if kind == "赞同" then Ok(AGREEMENT)
    else if kind == "疑问" then Ok(DOUBT)
    else if kind == "伪证" then Ok(PERJURY)
    else if kind == "反驳" then Ok(REFUTATION)
    else if kind == "魔法" then
      if arg.None? || arg.value == "" || Strip(arg.value) == "" then Err(MissingMagicName)
      else GetMagicStatement(arg.value)
    else Err(UnknownStatementKind(statement))
  }

  /** Conversion of a kind keyword, with the witch's name for the magic kind,
      into a statement. */
  function GetStatement(statement: string, arg: Optional<string>): (r: Result<Statement, LookupError>)
    ensures NormalizeText(statement) !in STATEMENT_KINDS ==> r == Err(UnknownStatementKind(statement))
    ensures NormalizeText(statement) == "魔法" && (arg.None? || AllSpace(arg.value)) ==>
      r == Err(MissingMagicName)
    ensures NormalizeText(statement) == "魔法" && arg.Some? && !AllSpace(arg.value) ==>
      r == GetMagicStatement(arg.value)
  {
    var normalizedStatement := NormalizeText(statement);
    MatchStatementKind(normalizedStatement, statement, arg)
  }

  /** The keyword match produces a statement exactly for that statement's
      keyword, with a resolvable witch's name when the kind is magic. */
  lemma MatchStatementKindExact(kind: string, statement: string, arg: Optional<string>, s: Statement)
    ensures MatchStatementKind(kind, statement, arg) == Ok(s) <==>
      && kind == KindNameOf(s)
      && (s.IsMagic() ==> arg.Some? && GetMagicStatement(arg.value) == Ok(s))
  {
    var r := MatchStatementKind(kind, statement, arg);
    if kind == "魔法" {
      if arg.None? || arg.value == "" || Strip(arg.value) == "" {
        assert r == Err(MissingMagicName);
        if arg.Some? { assert GetMagicStatement(arg.value).Err?; }
      }
    }
  }

  /** A statement is produced exactly when the keyword normalises to its
      kind's keyword and, for a magic kind, the argument names its witch;
      a plain kind ignores the argument altogether. */
  lemma GetStatementExact(statement: string, arg: Optional<string>, s: Statement)
    ensures GetStatement(statement, arg) == Ok(s) <==>
      && NormalizeText(statement) == KindNameOf(s)
      && (s.IsMagic() ==> arg.Some? && GetMagicStatement(arg.value) == Ok(s))
  {
    MatchStatementKindExact(NormalizeText(statement), statement, arg, s);
  }

  /** A plain kind's keyword selects it whatever whitespace surrounds the
      keyword, and the argument is ignored. */
  lemma StatementPlainPadded(a: string, s: Statement, b: string, arg: Optional<string>)
    requires AllSpace(a) && !s.IsMagic() && AllSpace(b)
    ensures GetStatement(a + KindNameOf(s) + b, arg) == Ok(s)
  {
    NormalizeTextPadded(a, KindNameOf(s), b);
    GetStatementExact(a + KindNameOf(s) + b, arg, s);
  }

  /** The magic keyword with a witch's name selects her magic kind, whatever
      whitespace surrounds either. */
  lemma StatementMagicPadded(a: string, b: string, c: string, s: Statement, d: string)
    requires AllSpace(a) && AllSpace(b) && AllSpace(c) && s.IsMagic() && AllSpace(d)
    ensures GetStatement(a + "魔法" + b, Some(c + MagicNameOf(s) + d)) == Ok(s)
  {
    NormalizeTextPadded(a, "魔法", b);
    MagicNamePadded(c, s, d);
    GetStatementExact(a + "魔法" + b, Some(c + MagicNameOf(s) + d), s);
  }

  /** The magic kind without a usable argument is refused. */
  lemma StatementMagicMissingExample()
    ensures GetStatement("魔法", None) == Err(MissingMagicName)
    ensures GetStatement("魔法", Some("")) == Err(MissingMagicName)
  {
    NormalizeTextPadded("", "魔法", "");
    assert "" + "魔法" + "" == "魔法";
  }

  /** Part of a keyword is not a keyword. */
  lemma StatementUnknownKindExample()
    ensures GetStatement("赞", None) == Err(UnknownStatementKind("赞"))
  {
    NormalizeTextPadded("", "赞", "");
    assert "" + "赞" + "" == "赞";
  }

  // ---------------------------------------------------------------------
  // Characters

  /** The table from a name to the trial character it selects. */
  const CHARACTERS: map<string, Character> := map[
    "艾玛" := EMA,
    "希罗" := HIRO
  ]

  /** The inverse of `CHARACTERS`. */
  function CharacterNameOf(c: Character): (r: string)
    ensures IsWord(r)
  {
    match c
    case EMA => "艾玛"
    case HIRO => "希罗"
  }

  /** The character table is a bijection between the two names and the two
      characters, and `CharacterNameOf` is its inverse. */
  lemma CharacterTableBijective()
    ensures forall name :: name in CHARACTERS ==> CharacterNameOf(CHARACTERS[name]) == name
    ensures forall c: Character :: CharacterNameOf(c) in CHARACTERS && CHARACTERS[CharacterNameOf(c)] == c
  {
  }

  /** Conversion of a name into a trial character. */
  function GetCharacter(character: string): (r: Result<Character, LookupError>)
    ensures character == "" ==> r == Err(EmptyCharacterName)
    ensures character != "" && AllSpace(character) ==> r == Err(BlankCharacterName)
    ensures !AllSpace(character) && r.Err? ==> r == Err(UnknownCharacterName(character))
  {
    if character == "" then
      Err(EmptyCharacterName)
    else
      var normalizedCharacter := NormalizeText(character);
      if normalizedCharacter == "" then
        Err(BlankCharacterName)
      else if normalizedCharacter in CHARACTERS then
        Ok(CHARACTERS[normalizedCharacter])
      else
        Err(UnknownCharacterName(character))
  }

  /** A name selects a character exactly when it normalises to that
      character's name. */
  lemma GetCharacterExact(character: string, c: Character)
    ensures GetCharacter(character) == Ok(c) <==> NormalizeText(character) == CharacterNameOf(c)
  {
    CharacterTableBijective();
  }

  /** A character's name selects it whatever whitespace surrounds it. */
  lemma CharacterPadded(a: string, c: Character, b: string)
    requires AllSpace(a) && AllSpace(b)
    ensures GetCharacter(a + CharacterNameOf(c) + b) == Ok(c)
  {
    NormalizeTextPadded(a, CharacterNameOf(c), b);
    GetCharacterExact(a + CharacterNameOf(c) + b, c);
  }

  /** A witch's name valid for magic statements is not a trial character.
      The name arrives as a parameter fixed by the precondition, rather than
      as a literal in the postcondition, so that the verifier does not
      unfold `Strip` and `Split` character by character on a literal. */
  lemma CharacterMagicNameExample(name: string)
    requires name == "诺亚"
    ensures GetCharacter(name) == Err(UnknownCharacterName(name))
  {
    NormalizeTextPadded("", name, "");
    assert "" + name + "" == name;
    assert !AllSpace(name) by { assert !IsSpace(name[0]); }
    GetCharacterExact(name, EMA);
    GetCharacterExact(name, HIRO);
  }

  /** Empty and whitespace-only names are refused with their own errors. */
  lemma CharacterBlankExample()
    ensures GetCharacter("") == Err(EmptyCharacterName)
    ensures GetCharacter("\U{3000}") == Err(BlankCharacterName)
  {
    assert AllSpace("\U{3000}");
  }
}

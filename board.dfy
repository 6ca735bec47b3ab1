/** The timetable board generator's pure helpers: the subject-name
    abbreviation used to fit names in the board cells
    (`abreviar_disciplina`) and the example timetable it draws when no
    result file is given (`carregar_dados_exemplo`). */
module Board {
  import opened Wrappers
  import Week

  // ---------------------------------------------------------------- words

  /** Python's `str.isspace`: the characters `str.split()` splits on. */
  predicate IsSpace(c: char)
  {
    || ('\t' <= c <= '\r')
    || ('\U{1C}' <= c <= '\U{1F}')
    || c == ' ' || c == '\U{85}' || c == '\U{A0}' || c == '\U{1680}'
    || ('\U{2000}' <= c <= '\U{200A}')
    || c == '\U{2028}' || c == '\U{2029}' || c == '\U{202F}' || c == '\U{205F}' || c == '\U{3000}'
  }

  predicate NoSpace(w: string)
  {
    forall i :: 0 <= i < |w| ==> !IsSpace(w[i])
  }

  /** A word as `split()` returns it: not empty, without whitespace. */
  predicate IsWord(w: string)
  {
    w != [] && NoSpace(w)
  }

  /** The length of the run of non-space characters at the head of `s`. */
  function WordLength(s: string): (n: nat)
    ensures n <= |s| && NoSpace(s[..n]) && (n == |s| || IsSpace(s[n]))
  {
    if s == [] || IsSpace(s[0]) then 0
    else
      var n := WordLength(s[1..]);
      assert s[..n + 1] == [s[0]] + s[1..][..n];
      n + 1
  }

  /** `s.split()`: the maximal runs of non-space characters, in order. */
  function Words(s: string): (ws: seq<string>)
    ensures forall i :: 0 <= i < |ws| ==> IsWord(ws[i])
    decreases |s|
  {
    if s == [] then []
    else if IsSpace(s[0]) then Words(s[1..])
    else
      var n := WordLength(s);
      [s[..n]] + Words(s[n..])
  }

  /** `' '.join(ws)`. */
  function Join(ws: seq<string>): string
  {
    if ws == [] then []
    else if |ws| == 1 then ws[0]
    else ws[0] + " " + Join(ws[1..])
  }

  /** The joined text is every word plus one separator between each two. */
  function TotalLength(ws: seq<string>): nat
  {
    if ws == [] then 0 else |ws[0]| + TotalLength(ws[1..])
  }

  lemma {:induction false} JoinLength(ws: seq<string>)
    requires ws != []
    ensures |Join(ws)| == TotalLength(ws) + |ws| - 1
  {
    if |ws| > 1 {
      JoinLength(ws[1..]);
    }
  }

  lemma {:induction false} WordsOfWord(w: string, rest: string)
    requires IsWord(w) && (rest == [] || IsSpace(rest[0]))
    ensures WordLength(w + rest) == |w|
    decreases |w|
  {
    if |w| > 1 {
      WordsOfWord(w[1..], rest);
      assert (w + rest)[1..] == w[1..] + rest;
    } else {
      assert (w + rest)[1..] == rest;
    }
  }

  /** Splitting the joined words gives the words back. */
  lemma {:induction false} SplitJoin(ws: seq<string>)
    requires forall i :: 0 <= i < |ws| ==> IsWord(ws[i])
    ensures Words(Join(ws)) == ws
  {
    if |ws| == 1 {
      WordsOfWord(ws[0], []);
      assert ws[0] + [] == ws[0];
      assert ws[0][|ws[0]|..] == [];
      assert ws[0][..|ws[0]|] == ws[0];
    } else if |ws| > 1 {
      var w, rest := ws[0], " " + Join(ws[1..]);
      SplitJoin(ws[1..]);
      WordsOfWord(w, rest);
      var s := w + rest;
      assert Join(ws) == s;
      assert s[..|w|] == w;
      assert s[|w|..] == rest;
      assert rest[1..] == Join(ws[1..]);
      assert Words(rest) == Words(Join(ws[1..]));
    }
  }

  // ---------------------------------------------------------------- upper case

  /** Python's `str.upper` on one character: ASCII and Latin-1 letters,
      the characters whose upper case is ASCII (dotless i, long s, sharp s
      and the Latin ligatures), and the two Latin-1 letters whose upper case
      lies outside Latin-1. Any other character is left as it is. */
  function UpperChar(c: char): (u: string)
    ensures |u| >= 1
    ensures 'a' <= c <= 'z' ==> u == [((c as int) - 32) as char]
    ensures c < '\U{80}' && !('a' <= c <= 'z') ==> u == [c]
  {
    if 'a' <= c <= 'z' then [((c as int) - 32) as char]
    else if '\U{E0}' <= c <= '\U{FE}' && c != '\U{F7}' then [((c as int) - 32) as char]
    else if c == '\U{B5}' then "\U{39C}"
    else if c == '\U{FF}' then "\U{178}"
    else if c == '\U{DF}' then "SS"
    else if c == '\U{131}' then "I"
    else if c == '\U{17F}' then "S"
    else if c == '\U{FB00}' then "FF"
    else if c == '\U{FB01}' then "FI"
    else if c == '\U{FB02}' then "FL"
    else if c == '\U{FB03}' then "FFI"
    else if c == '\U{FB04}' then "FFL"
    else if c == '\U{FB05}' || c == '\U{FB06}' then "ST"
    else [c]
  }

  /** `s` with every character replaced by its image under `f`. */
  function Concat(f: char -> string, s: string): (u: string)
  {
    if s == [] then [] else f(s[0]) + Concat(f, s[1..])
  }

  lemma {:induction false} ConcatAppend(f: char -> string, a: string, b: string)
    ensures Concat(f, a + b) == Concat(f, a) + Concat(f, b)
  {
    if a != [] {
      ConcatAppend(f, a[1..], b);
      assert (a + b)[1..] == a[1..] + b;
    } else {
      assert a + b == b;
    }
  }

  /** `str.upper`. */
  function Upper(s: string): string
  {
    Concat(UpperChar, s)
  }

  /** A character that upper-casing leaves alone. */
  predicate Fixed(c: char)
  {
    UpperChar(c) == [c]
  }

  lemma {:induction false} UpperOfFixed(s: string)
    requires forall i :: 0 <= i < |s| ==> Fixed(s[i])
    ensures Upper(s) == s
  {
    if s != [] {
      UpperOfFixed(s[1..]);
    }
  }

  /** Every character of an upper-cased character is left alone by a
      second upper-casing. */
  lemma {:induction false} UpperCharFixed(c: char)
    ensures forall i :: 0 <= i < |UpperChar(c)| ==> Fixed(UpperChar(c)[i])
  {
    if 'a' <= c <= 'z' || ('\U{E0}' <= c <= '\U{FE}' && c != '\U{F7}') {
      assert Fixed(((c as int) - 32) as char);
    } else {
      assert Fixed('S') && Fixed('F') && Fixed('I') && Fixed('L') && Fixed('T');
    }
  }

  /** Upper-casing twice changes nothing more. */
  lemma {:induction false} UpperIdempotent(s: string)
    ensures Upper(Upper(s)) == Upper(s)
  {
    if s != [] {
      UpperIdempotent(s[1..]);
      ConcatAppend(UpperChar, UpperChar(s[0]), Upper(s[1..]));
      UpperCharFixed(s[0]);
      UpperOfFixed(UpperChar(s[0]));
    }
  }

  // ---------------------------------------------------------------- abbreviation

  /** The `abreviacoes` table, in its source order. */
  const Abbreviations: seq<(string, string)> := [
    ("ALGORITMOS", "ALG"),
    ("T\U{C9}CNICAS", "T\U{C9}C"),
    ("PROGRAMA\U{C7}\U{C3}O", "PROG"),
    ("ORGANIZA\U{C7}\U{C3}O", "ORG"),
    ("ARQUITETURA", "ARQ"),
    ("COMPUTADORES", "COMP"),
    ("SISTEMAS", "SIST"),
    ("INFORMA\U{C7}\U{C3}O", "INFO"),
    ("C\U{C1}LCULO", "CALC"),
    ("DIFERENCIAL", "DIF"),
    ("INTEGRAL", "INT"),
    ("PROJETO", "PROJ"),
    ("INTEGRADOR", "INTEG"),
    ("EXTENS\U{C3}O", "EXT"),
    ("CURRICULARIZADA", "CURR"),
    ("ESTRUTURAS", "ESTR"),
    ("DADOS", "DADOS"),
    ("OPERACIONAIS", "OPER"),
    ("BANCO", "BD"),
    ("ENGENHARIA", "ENG"),
    ("SOFTWARE", "SW"),
    ("T\U{D3}PICOS", "T\U{D3}P"),
    ("ESPECIAIS", "ESP"),
    ("CULTURA", "CULT"),
    ("SOCIEDADE", "SOC")
  ]

  /** The capital letters the table is written in. */
  predicate Capital(c: char)
  {
    || ('A' <= c <= 'Z')
    || c == '\U{C1}' || c == '\U{C3}' || c == '\U{C7}' || c == '\U{C9}' || c == '\U{D3}'
  }

  predicate Capitals(s: string)
  {
    s != [] && forall i :: 0 <= i < |s| ==> Capital(s[i])
  }

  lemma {:induction false} CapitalsAreWords(s: string)
    requires Capitals(s)
    ensures IsWord(s) && Upper(s) == s
  {
    forall i | 0 <= i < |s| ensures Fixed(s[i]) && !IsSpace(s[i]) {
      assert Capital(s[i]);
    }
    UpperOfFixed(s);
  }

  /** Keys and abbreviations are single words in capitals, the
      abbreviations at most five characters long. */
  lemma {:induction false} KeysInCapitals()
    ensures forall i :: 0 <= i < |Abbreviations| ==> Capitals(Abbreviations[i].0)
  {
    FirstKeysInCapitals();
    LastKeysInCapitals();
  }

  lemma {:induction false} FirstKeysInCapitals()
    ensures forall i :: 0 <= i < 12 ==> Capitals(Abbreviations[i].0)
  {
  }

  lemma {:induction false} LastKeysInCapitals()
    ensures forall i :: 12 <= i < |Abbreviations| ==> Capitals(Abbreviations[i].0)
  {
  }

  lemma {:induction false} ValuesInCapitals()
    ensures forall i :: 0 <= i < |Abbreviations| ==> Capitals(Abbreviations[i].1) && |Abbreviations[i].1| <= 5
  {
  }

  /** Every abbreviation is a word of at most five characters, and every
      key is already in upper case, so a word typed in capitals finds it. */
  lemma {:induction false} AbbreviationsTable()
    ensures |Abbreviations| == 25
    ensures forall i :: 0 <= i < |Abbreviations| ==> IsWord(Abbreviations[i].1) && |Abbreviations[i].1| <= 5
    ensures forall i :: 0 <= i < |Abbreviations| ==> Upper(Abbreviations[i].0) == Abbreviations[i].0
  {
    KeysInCapitals();
    ValuesInCapitals();
    forall i | 0 <= i < |Abbreviations|
      ensures IsWord(Abbreviations[i].1) && |Abbreviations[i].1| <= 5
      ensures Upper(Abbreviations[i].0) == Abbreviations[i].0
    {
      CapitalsAreWords(Abbreviations[i].0);
      CapitalsAreWords(Abbreviations[i].1);
    }
  }

  /** `abreviacoes.get(key)`. */
  function Lookup(key: string): (r: Option<string>)
    ensures r.None? <==> forall i :: 0 <= i < |Abbreviations| ==> Abbreviations[i].0 != key
    ensures r.Some? ==> exists i :: 0 <= i < |Abbreviations| && Abbreviations[i] == (key, r.value)
  {
    LookupIn(Abbreviations, key)
  }

  function LookupIn(table: seq<(string, string)>, key: string): (r: Option<string>)
    ensures r.None? <==> forall i :: 0 <= i < |table| ==> table[i].0 != key
    ensures r.Some? ==> exists i :: 0 <= i < |table| && table[i] == (key, r.value)
  {
    if table == [] then None
    else if table[0].0 == key then Some(table[0].1)
    else
      var r := LookupIn(table[1..], key);
      assert forall j :: 1 <= j < |table| ==> table[j] == table[1..][j - 1];
      r
  }

  /** One word of a long name: its abbreviation when its upper case is in
      the table, otherwise its first four characters. */
  function AbbreviateWord(w: string): (a: string)
    requires IsWord(w)
    ensures IsWord(a) && |a| <= 5
    ensures Lookup(Upper(w)).None? ==> |a| == (if |w| < 4 then |w| else 4) && a == w[..|a|]
    ensures Lookup(Upper(w)).Some? ==> a == Lookup(Upper(w)).value
  {
    match Lookup(Upper(w))
    case Some(x) =>
      AbbreviationsTable();
      x
    case None =>
      if |w| < 4 then w else w[..4]
  }

  function AbbreviateWords(ws: seq<string>): (r: seq<string>)
    requires forall i :: 0 <= i < |ws| ==> IsWord(ws[i])
    ensures |r| == |ws|
  {
    seq(|ws|, i requires 0 <= i < |ws| => AbbreviateWord(ws[i]))
  }

  /** The placeholders that `str()` gives a missing name. */
  predicate Missing(name: string)
  {
    name == "nan" || name == "None" || name == ""
  }

  const Longest: nat := 25

  /** `abreviar_disciplina` on a name already converted with `str()`. */
  function Abbreviate(name: string): string
  {
    if Missing(name) then "DISCIPLINA"
    else
      var ws := Words(name);
      if |ws| <= 2 then name
      else
        var ab := AbbreviateWords(ws);
        var r := Join(ab);
        if |r| > Longest then Join(ab[..3]) else r
  }

  lemma {:induction false} TotalLengthBound(ws: seq<string>)
    requires forall i :: 0 <= i < |ws| ==> |ws[i]| <= 5
    ensures TotalLength(ws) <= 5 * |ws|
  {
    if ws != [] {
      TotalLengthBound(ws[1..]);
    }
  }

  /** A missing name reads `DISCIPLINA`; a name of at most two words is
      kept as it is; a longer one becomes the abbreviations of its words,
      all of them when they fit in twenty-five characters and otherwise the
      first three, so the result never exceeds twenty-five characters and
      splits back into those abbreviations. */
  lemma {:induction false} AbbreviateFacts(name: string)
    ensures Missing(name) ==> Abbreviate(name) == "DISCIPLINA"
    ensures !Missing(name) && |Words(name)| <= 2 ==> Abbreviate(name) == name
    ensures !Missing(name) && |Words(name)| > 2 ==>
              var ab := AbbreviateWords(Words(name));
              && |Abbreviate(name)| <= Longest
              && (Words(Abbreviate(name)) == ab || Words(Abbreviate(name)) == ab[..3])
              && (|Join(ab)| <= Longest ==> Words(Abbreviate(name)) == ab)
  {
    if !Missing(name) && |Words(name)| > 2 {
      var ab := AbbreviateWords(Words(name));
      SplitJoin(ab);
      SplitJoin(ab[..3]);
      TotalLengthBound(ab[..3]);
      JoinLength(ab[..3]);
    }
  }

  /** One pass of the `palavras_abrev` loop. */
  method AbbreviateOne(w: string) returns (a: string)
    requires IsWord(w)
    ensures a == AbbreviateWord(w)
  {
    var upper := Upper(w);
    var found := Lookup(upper);
    if found.Some? {
      a := found.value;
    } else {
      a := w[..if |w| < 4 then |w| else 4];
    }
  }

  /** A loop that applies `f` to every element, in order. */
  method MapAll<A, B>(f: A --> B, xs: seq<A>) returns (ys: seq<B>)
    requires forall i :: 0 <= i < |xs| ==> f.requires(xs[i])
    ensures |ys| == |xs| && forall i :: 0 <= i < |xs| ==> ys[i] == f(xs[i])
  {
    ys := [];
    for i := 0 to |xs|
      invariant |ys| == i && forall j :: 0 <= j < i ==> ys[j] == f(xs[j])
    {
      ys := ys + [f(xs[i])];
    }
  }

  /** The `palavras_abrev` loop: one abbreviation per word, in order. */
  method AbbreviateAll(ws: seq<string>) returns (ab: seq<string>)
    requires forall i :: 0 <= i < |ws| ==> IsWord(ws[i])
    ensures ab == AbbreviateWords(ws)
  {
    ab := MapAll(AbbreviateWord, ws);
  }

  /** The loop, then the join and the length rule. */
  method AbbreviateName(name: string) returns (r: string)
    ensures r == Abbreviate(name)
  {
    if Missing(name) {
      return "DISCIPLINA";
    }
    var ws := Words(name);
    if |ws| <= 2 {
      return name;
    }
    var ab := AbbreviateAll(ws);
    r := Join(ab);
    if |r| > Longest {
      r := Join(ab[..3]);
    }
  }

  // ---------------------------------------------------------------- example data

  /** A row of the example timetable. */
  datatype ExampleRow = ExampleRow(day: string, time: string, cohort: string, subject: string, teacher: string, room: string)

  const Cohort: string := "SIN-2A-N"
  const Room: string := "201"

  function Row(d: nat, h: nat, subject: string, teacher: string): (r: ExampleRow)
    requires Week.IsDay(d) && Week.IsSlot(h)
    ensures r.day == Week.DayNames[d] && r.time == Week.SlotNames[h]
  {
    ExampleRow(Week.DayNames[d], Week.SlotNames[h], Cohort, subject, teacher, Room)
  }

  const CultureSociety: string := "CULTURA E SOCIEDADE"
  const Algorithms: string := "ALGORITMOS E T\U{C9}CNICAS DE PROGRAMA\U{C7}\U{C3}O II"
  const Organisation: string := "ORGANIZA\U{C7}\U{C3}O E ARQUITETURA DE COMPUTADORES"
  const InformationSystems: string := "SISTEMAS DE INFORMA\U{C7}\U{C3}O"
  const Calculus: string := "C\U{C1}LCULO DIFERENCIAL E INTEGRAL"
  const ProjectOne: string := "PROJETO INTEGRADOR I"
  const DataStructures: string := "ESTRUTURAS DE DADOS E ALGORITMOS"
  const OperatingSystems: string := "SISTEMAS OPERACIONAIS II"
  const Databases: string := "SISTEMAS DE BANCO DE DADOS"
  const SoftwareEngineering: string := "ENGENHARIA DE SOFTWARE II"
  const SpecialTopics: string := "T\U{D3}PICOS ESPECIAIS I"
  const ProjectThree: string := "PROJETO INTEGRADOR III"

  /** The subjects and teachers of `carregar_dados_exemplo`, cell by cell
      in day-major order. */
  const ExampleSubjects: seq<string> := [
    CultureSociety, Algorithms, Organisation, InformationSystems,
    Calculus, ProjectOne, CultureSociety, Algorithms,
    DataStructures, OperatingSystems, Databases, SoftwareEngineering,
    SpecialTopics, ProjectThree, Organisation, InformationSystems,
    DataStructures, Databases, Calculus, ProjectOne]

  const ExampleTeachers: seq<string> := [
    "ALTAMIR", "SANDRO", "LILIS", "BARROS",
    "GERALDO", "DIANE", "ALTAMIR", "SANDRO",
    "SANDRO", "BARROS", "ALEXANDRE", "LILIS",
    "MARINHO", "DALILA", "LILIS", "BARROS",
    "SANDRO", "ALEXANDRE", "GERALDO", "DIANE"]

  /** `carregar_dados_exemplo`: twenty lessons of one cohort in one room,
      day by day and slot by slot. */
  const Example: seq<ExampleRow> :=
    seq(Week.NumCells, k requires 0 <= k < Week.NumCells => Row(k / 4, k % 4, ExampleSubjects[k], ExampleTeachers[k]))

  /** Row `k` of the example sits in cell (k / 4, k % 4). */
  lemma {:induction false} ExampleInOrder()
    ensures |Example| == Week.NumCells
    ensures forall k :: 0 <= k < Week.NumCells ==>
              Example[k].day == Week.DayNames[k / 4] && Example[k].time == Week.SlotNames[k % 4]
  {
  }

  /** The example fills each of the twenty cells of the week exactly once. */
  lemma {:induction false} ExampleCoversWeek()
    ensures forall d, h :: Week.IsDay(d) && Week.IsSlot(h) ==>
              exists k :: 0 <= k < |Example| && Example[k].day == Week.DayNames[d] && Example[k].time == Week.SlotNames[h]
    ensures forall k, k' :: 0 <= k < k' < |Example| ==>
              Example[k].day != Example[k'].day || Example[k].time != Example[k'].time
  {
    ExampleInOrder();
    Week.DayNamesDistinct();
    Week.SlotNamesDistinct();
    forall d, h | Week.IsDay(d) && Week.IsSlot(h)
      ensures exists k :: 0 <= k < |Example| && Example[k].day == Week.DayNames[d] && Example[k].time == Week.SlotNames[h]
    {
      var k := Week.Pos(d, h);
      assert Example[k].day == Week.DayNames[d];
    }
    forall k, k' | 0 <= k < k' < |Example|
      ensures Example[k].day != Example[k'].day || Example[k].time != Example[k'].time
    {
      if k / 4 == k' / 4 {
        assert k % 4 != k' % 4;
      }
    }
  }
}

/** The texts that are read as hstore values, and what they mean. */
module HstoreText {
  import opened Basics
  import opened CString
  import opened Hstore
  import opened HstoreParse

  // ---------------------------------------------------------------- words

  /** A character of a word as it is written: by itself, or behind a backslash. */
  datatype Letter = Plain(c: char) | Behind(c: char)

  datatype WordForm = QuotedWord(letters: seq<Letter>) | BareWord(letters: seq<Letter>)

  function LetterText(l: Letter): string {
    if l.Plain? then [l.c] else ['\\', l.c]
  }

  function LettersText(ls: seq<Letter>): string {
    if ls == [] then "" else LetterText(ls[0]) + LettersText(ls[1..])
  }

  /** The characters meant. */
  function Spelled(ls: seq<Letter>): (w: string)
    ensures |w| == |ls| && forall k :: 0 <= k < |ls| ==> w[k] == ls[k].c
  {
    seq(|ls|, k requires 0 <= k < |ls| => ls[k].c)
  }

  function WordText(w: WordForm): string {
    match w
    case QuotedWord(ls) => "\"" + (LettersText(ls) + "\"")
    case BareWord(ls) => LettersText(ls)
  }

  predicate IsBlank(c: char) {
    c == ' ' || c == '\t' || c == '\n' || c == '\U{B}' || c == '\U{C}' || c == '\r'
  }

  predicate Blanks(s: string) {
    forall k :: 0 <= k < |s| ==> IsBlank(s[k])
  }

  predicate QuotedLetter(l: Letter) {
    l.c != '\0' && (l.Plain? ==> l.c != '"' && l.c != '\\')
  }

  /** Within a bare word a key may not hold = and a value no comma, unless behind a backslash. */
  predicate BareLetter(l: Letter, key: bool) {
    l.c != '\0' && (l.Plain? ==> l.c != '\\' && !IsBlank(l.c) && l.c != if key then '=' else ',')
  }

  /** At the beginning a quote starts a quoted word, and a value may have a comma there. */
  predicate FirstLetter(l: Letter, key: bool) {
    l.c != '\0' && (l.Plain? ==> l.c != '\\' && !IsBlank(l.c) && l.c != '"' && (key ==> l.c != '='))
  }

  predicate WordOk(w: WordForm, key: bool) {
    match w
    case QuotedWord(ls) => forall k :: 0 <= k < |ls| ==> QuotedLetter(ls[k])
    case BareWord(ls) =>
      ls != [] && FirstLetter(ls[0], key) && forall k :: 0 < k < |ls| ==> BareLetter(ls[k], key)
  }

  // ---------------------------------------------------------------- pairs

  /** Blanks, a key, blanks, =>, blanks, a value, blanks. */
  datatype PairForm = PairForm(b0: string, key: WordForm, b1: string, b2: string, val: WordForm, b3: string)

  function PairText(p: PairForm): string {
    p.b0 + (WordText(p.key) + ((p.b1 + "=>") + (p.b2 + (WordText(p.val) + p.b3))))
  }

  predicate PairOk(p: PairForm) {
    && Blanks(p.b0) && Blanks(p.b1) && Blanks(p.b2) && Blanks(p.b3)
    && WordOk(p.key, true) && WordOk(p.val, false)
  }

  /** The word null without quotes, in any case. */
  predicate IsNullWord(w: WordForm) {
    && w.BareWord? && |w.letters| == 4
    && forall k :: 0 <= k < 4 ==> w.letters[k].c == "null"[k] || w.letters[k].c == "NULL"[k]
  }

  /** Lengths are kept in 16 bits. */
  function Short(w: string): string {
    w[..|w| % 65536]
  }

  function PairMeans(p: PairForm): Pair {
    Pair(Short(Spelled(p.key.letters)), if IsNullWord(p.val) then None else Some(Short(Spelled(p.val.letters))))
  }

  /** Pairs with commas between them; there may be one behind the last pair. */
  datatype ListForm = Nothing(blanks: string) | Last(p: PairForm) | More(p: PairForm, rest: ListForm)

  function ListText(f: ListForm): string {
    match f
    case Nothing(b) => b
    case Last(p) => PairText(p)
    case More(p, rest) => PairText(p) + ("," + ListText(rest))
  }

  predicate ListOk(f: ListForm) {
    match f
    case Nothing(b) => Blanks(b)
    case Last(p) => PairOk(p)
    case More(p, rest) => PairOk(p) && ListOk(rest)
  }

  function PairsOf(f: ListForm): seq<Pair> {
    match f
    case Nothing(_) => []
    case Last(p) => [PairMeans(p)]
    case More(p, rest) => [PairMeans(p)] + PairsOf(rest)
  }

  /** The text is written as the form says. */
  predicate Spells(f: ListForm, s: string) {
    ListOk(f) && ListText(f) == s
  }

  // ---------------------------------------------------------------- such texts are read

  lemma BlankIsSpace(c: char)
    ensures IsSpace(c) <==> IsBlank(c)
  {
    if '\t' <= c <= '\r' {
      assert c == '\t' || c == '\n' || c == '\U{B}' || c == '\U{C}' || c == '\r';
    }
  }

  lemma {:induction false} BlanksSkipped(s: string, i: nat, b: string, ignoreeq: bool)
    requires Has(s, i, b) && Blanks(b)
    ensures i + |b| <= |s|
    ensures Scanned(s, i, WaitVal, "", false, ignoreeq) == Scanned(s, i + |b|, WaitVal, "", false, ignoreeq)
    decreases |b|
  {
    if b != "" {
      HasChar(s, i, b);
      BlankIsSpace(b[0]);
      BlanksSkipped(s, i + 1, b[1..], ignoreeq);
    }
  }

  lemma SpelledCons(l: Letter, ls: seq<Letter>, acc: string)
    ensures acc + [l.c] + Spelled(ls) == acc + Spelled([l] + ls)
  {
  }

  lemma {:induction false} QuotedRead(s: string, i: nat, ls: seq<Letter>, acc: string, ignoreeq: bool)
    requires Has(s, i, LettersText(ls)) && forall k :: 0 <= k < |ls| ==> QuotedLetter(ls[k])
    ensures i + |LettersText(ls)| <= |s|
    ensures Scanned(s, i, InEscVal, acc, true, ignoreeq) ==
      Scanned(s, i + |LettersText(ls)|, InEscVal, acc + Spelled(ls), true, ignoreeq)
    decreases |ls|
  {
    hide Has;
    HasRoom(s, i, LettersText(ls));
    if ls == [] {
      assert acc + Spelled(ls) == acc;
    } else {
      var l := ls[0];
      HasParts(s, i, LetterText(l), LettersText(ls[1..]));
      LetterRead(s, i, l, acc, true, ignoreeq);
      hide Scanned;
      QuotedRead(s, i + |LetterText(l)|, ls[1..], acc + [l.c], ignoreeq);
      SpelledCons(l, ls[1..], acc);
      assert [l] + ls[1..] == ls;
    }
  }

  /** One more letter of a word under way. */
  lemma LetterRead(s: string, i: nat, l: Letter, acc: string, quoted: bool, ignoreeq: bool)
    requires Has(s, i, LetterText(l)) && (quoted || i >= 1)
    requires if quoted then QuotedLetter(l) else BareLetter(l, !ignoreeq)
    ensures i + |LetterText(l)| <= |s|
    ensures var st := if quoted then InEscVal else InVal;
      Scanned(s, i, st, acc, quoted, ignoreeq) == Scanned(s, i + |LetterText(l)|, st, acc + [l.c], quoted, ignoreeq)
  {
    HasChar(s, i, LetterText(l));
    BlankIsSpace(l.c);
    if l.Behind? {
      HasChar(s, i + 1, LetterText(l)[1..]);
      assert At(s, i + 1) == l.c;
    }
  }

  lemma {:induction false} BareRead(s: string, i: nat, ls: seq<Letter>, acc: string, ignoreeq: bool)
    requires Has(s, i, LettersText(ls)) && i >= 1 && forall k :: 0 <= k < |ls| ==> BareLetter(ls[k], !ignoreeq)
    ensures i + |LettersText(ls)| <= |s|
    ensures Scanned(s, i, InVal, acc, false, ignoreeq) ==
      Scanned(s, i + |LettersText(ls)|, InVal, acc + Spelled(ls), false, ignoreeq)
    decreases |ls|
  {
    hide Has;
    HasRoom(s, i, LettersText(ls));
    if ls == [] {
      assert acc + Spelled(ls) == acc;
    } else {
      var l := ls[0];
      HasParts(s, i, LetterText(l), LettersText(ls[1..]));
      LetterRead(s, i, l, acc, false, ignoreeq);
      hide Scanned;
      BareRead(s, i + |LetterText(l)|, ls[1..], acc + [l.c], ignoreeq);
      SpelledCons(l, ls[1..], acc);
      assert [l] + ls[1..] == ls;
    }
  }

  lemma FirstRead(s: string, i: nat, l: Letter, ignoreeq: bool)
    requires Has(s, i, LetterText(l)) && FirstLetter(l, !ignoreeq)
    ensures i + |LetterText(l)| <= |s|
    ensures Scanned(s, i, WaitVal, "", false, ignoreeq) == Scanned(s, i + |LetterText(l)|, InVal, [l.c], false, ignoreeq)
  {
    HasChar(s, i, LetterText(l));
    BlankIsSpace(l.c);
    assert "" + [l.c] == [l.c];
    if l.Behind? {
      HasChar(s, i + 1, LetterText(l)[1..]);
      assert At(s, i + 1) == l.c;
    }
  }

  /** What may stand behind a word so that it ends there. */
  predicate EndsWord(w: WordForm, c: char, key: bool) {
    w.BareWord? ==> IsBlank(c) || c == (if key then '=' else ',') || c == '\0'
  }

  /** The place where the parser goes on. */
  function NextPlace(w: WordForm, end: nat, c: char): nat {
    if w.BareWord? && IsBlank(c) then end + 1 else end
  }

  lemma WordRead(s: string, i: nat, w: WordForm, key: bool)
    requires Has(s, i, WordText(w)) && WordOk(w, key) && EndsWord(w, At(s, i + |WordText(w)|), key)
    ensures var end := i + |WordText(w)|;
      && i < end <= |s|
      && Scanned(s, i, WaitVal, "", false, !key) == Word(Spelled(w.letters), w.QuotedWord?, NextPlace(w, end, At(s, end)) - 1)
  {
    hide Scanned, Has, LettersText, LetterText, QuotedLetter, BareLetter, FirstLetter;
    match w
    case QuotedWord(ls) => QuotedWordRead(s, i, ls, !key);
    case BareWord(ls) => BareWordRead(s, i, ls, key);
  }

  lemma QuotedWordRead(s: string, i: nat, ls: seq<Letter>, ignoreeq: bool)
    requires Has(s, i, "\"" + (LettersText(ls) + "\"")) && forall k :: 0 <= k < |ls| ==> QuotedLetter(ls[k])
    ensures var end := i + |LettersText(ls)| + 2;
      end <= |s| && Scanned(s, i, WaitVal, "", false, ignoreeq) == Word(Spelled(ls), true, end - 1)
  {
    hide *;
    var e := LettersText(ls);
    HasParts(s, i, "\"", e + "\"");
    HasParts(s, i + 1, e, "\"");
    HasChar(s, i, "\"");
    HasChar(s, i + 1 + |e|, "\"");
    QuoteOpens(s, i, ignoreeq);
    QuotedRead(s, i + 1, ls, "", ignoreeq);
    assert "" + Spelled(ls) == Spelled(ls);
    QuoteCloses(s, i + 1 + |e|, Spelled(ls), ignoreeq);
  }

  lemma BareWordRead(s: string, i: nat, ls: seq<Letter>, key: bool)
    requires Has(s, i, LettersText(ls)) && WordOk(BareWord(ls), key)
    requires EndsWord(BareWord(ls), At(s, i + |LettersText(ls)|), key)
    ensures var end := i + |LettersText(ls)|;
      && i < end <= |s|
      && Scanned(s, i, WaitVal, "", false, !key) == Word(Spelled(ls), false, NextPlace(BareWord(ls), end, At(s, end)) - 1)
  {
    hide Scanned, Has, LettersText, LetterText, BareLetter, FirstLetter;
    var l, rest := ls[0], ls[1..];
    assert [l] + rest == ls;
    LettersAre(l, rest);
    HasRoom(s, i, LettersText(ls));
    HasParts(s, i, LetterText(l), LettersText(rest));
    FirstRead(s, i, l, !key);
    BareRead(s, i + |LetterText(l)|, rest, [l.c], !key);
    SpelledCons(l, rest, "");
    assert "" + Spelled(ls) == Spelled(ls) && "" + [l.c] == [l.c];
    BareEnds(s, i + |LettersText(ls)|, Spelled(ls), key);
  }

  lemma QuoteOpens(s: string, i: nat, ignoreeq: bool)
    requires i < |s| && At(s, i) == '"'
    ensures Scanned(s, i, WaitVal, "", false, ignoreeq) == Scanned(s, i + 1, InEscVal, "", true, ignoreeq)
  {
  }

  lemma QuoteCloses(s: string, i: nat, word: string, ignoreeq: bool)
    requires i < |s| && At(s, i) == '"'
    ensures Scanned(s, i, InEscVal, word, true, ignoreeq) == Word(word, true, i)
  {
  }

  lemma BareEnds(s: string, i: nat, word: string, key: bool)
    requires 1 <= i <= |s| && (IsBlank(At(s, i)) || At(s, i) == (if key then '=' else ',') || At(s, i) == '\0')
    ensures Scanned(s, i, InVal, word, false, !key) == Word(word, false, if IsBlank(At(s, i)) then i else i - 1)
  {
    BlankIsSpace(At(s, i));
  }

  /** Blanks, = and > before a value. */
  lemma {:induction false} ArrowRead(s: string, i: nat, b: string, acc: seq<Pair>, key: string)
    requires Has(s, i, b + "=>") && Blanks(b)
    ensures i + |b| + 2 <= |s|
    ensures Parsed(s, i, WEq, acc, key) == Parsed(s, i + |b| + 2, WVal, acc, key)
    decreases |b|
  {
    HasParts(s, i, b, "=>");
    if b == "" {
      HasChar(s, i, "=>");
      assert "=>"[1..] == ">";
      HasChar(s, i + 1, ">");
      ArrowSteps(s, i, acc, key);
    } else {
      HasChar(s, i, b + "=>");
      assert (b + "=>")[1..] == b[1..] + "=>" && (b + "=>")[0] == b[0];
      BlankIsSpace(b[0]);
      BlankStep(s, i, acc, key);
      hide Parsed;
      ArrowRead(s, i + 1, b[1..], acc, key);
    }
  }

  lemma ArrowSteps(s: string, i: nat, acc: seq<Pair>, key: string)
    requires i + 1 < |s| && At(s, i) == '=' && At(s, i + 1) == '>'
    ensures Parsed(s, i, WEq, acc, key) == Parsed(s, i + 2, WVal, acc, key)
  {
    hide Scanned;
    assert Parsed(s, i, WEq, acc, key) == Parsed(s, i + 1, WGt, acc, key);
  }

  lemma BlankStep(s: string, i: nat, acc: seq<Pair>, key: string)
    requires i < |s| && IsSpace(At(s, i))
    ensures Parsed(s, i, WEq, acc, key) == Parsed(s, i + 1, WEq, acc, key)
    ensures Parsed(s, i, WDel, acc, "") == Parsed(s, i + 1, WDel, acc, "")
  {
    hide Scanned;
  }

  lemma {:induction false} TailSkipped(s: string, i: nat, b: string, acc: seq<Pair>)
    requires Has(s, i, b) && Blanks(b)
    ensures i + |b| <= |s|
    ensures Parsed(s, i, WDel, acc, "") == Parsed(s, i + |b|, WDel, acc, "")
    decreases |b|
  {
    hide Parsed;
    if b != "" {
      HasChar(s, i, b);
      BlankIsSpace(b[0]);
      BlankStep(s, i, acc, "");
      TailSkipped(s, i + 1, b[1..], acc);
    }
  }

  lemma KeyStep(s: string, i: nat, acc: seq<Pair>, word: string, escaped: bool, p: nat)
    requires i <= |s| && Scanned(s, i, WaitVal, "", false, false) == Word(word, escaped, p)
    ensures p < |s| && Parsed(s, i, WKey, acc, "") == Parsed(s, p + 1, WEq, acc, word)
  {
    hide Scanned;
  }

  lemma ValueStep(s: string, i: nat, acc: seq<Pair>, key: string, word: string, escaped: bool, p: nat)
    requires i <= |s| && Scanned(s, i, WaitVal, "", false, true) == Word(word, escaped, p)
    ensures p < |s| && Parsed(s, i, WVal, acc, key) == Parsed(s, p + 1, WDel, acc + [PairOf(key, word, escaped)], "")
  {
    hide Scanned, PairOf;
  }

  lemma PairOfMeans(p: PairForm)
    ensures PairOf(Spelled(p.key.letters), Spelled(p.val.letters), p.val.QuotedWord?) == PairMeans(p)
  {
    var w := Spelled(p.val.letters);
    assert IsNull(w, p.val.QuotedWord?) <==> IsNullWord(p.val);
  }

  lemma FirstOf(b: string, t: string, c: char, s: string, i: nat)
    requires Has(s, i, b + t) && Blanks(b) && t != "" && t[0] == c
    ensures IsBlank(At(s, i)) || At(s, i) == c
    ensures !IsBlank(c) ==> (IsBlank(At(s, i)) <==> b != "")
    ensures b != "" ==> Has(s, i + 1, b[1..] + t)
  {
    HasChar(s, i, b + t);
    assert b != "" ==> (b + t)[1..] == b[1..] + t;
    assert (b + t)[0] == if b != "" then b[0] else t[0];
  }

  /** A key with the arrow behind it. */
  lemma KeyRead(s: string, i: nat, p: PairForm, acc: seq<Pair>)
    requires PairOk(p) && Has(s, i, p.b0 + (WordText(p.key) + (p.b1 + "=>")))
    ensures var e := i + |p.b0| + |WordText(p.key)| + |p.b1| + 2;
      e <= |s| && Parsed(s, i, WKey, acc, "") == Parsed(s, e, WVal, acc, Spelled(p.key.letters))
  {
    hide Scanned, Parsed, Has, WordOk;
    var j := i + |p.b0|;
    var k := j + |WordText(p.key)|;
    HasParts(s, i, p.b0, WordText(p.key) + (p.b1 + "=>"));
    HasParts(s, j, WordText(p.key), p.b1 + "=>");
    BlanksSkipped(s, i, p.b0, false);
    FirstOf(p.b1, "=>", '=', s, k);
    WordRead(s, j, p.key, true);
    var at := NextPlace(p.key, k, At(s, k));
    KeyStep(s, i, acc, Spelled(p.key.letters), p.key.QuotedWord?, at - 1);
    if at == k {
      ArrowRead(s, k, p.b1, acc, Spelled(p.key.letters));
    } else {
      ArrowRead(s, k + 1, p.b1[1..], acc, Spelled(p.key.letters));
    }
  }

  lemma ValueRead(s: string, i: nat, p: PairForm, acc: seq<Pair>)
    requires PairOk(p) && Has(s, i, p.b2 + (WordText(p.val) + p.b3))
    requires var e := i + |p.b2| + |WordText(p.val)| + |p.b3|; At(s, e) == ',' || At(s, e) == '\0'
    ensures var e := i + |p.b2| + |WordText(p.val)| + |p.b3|;
      e <= |s| && Parsed(s, i, WVal, acc, Spelled(p.key.letters)) == Parsed(s, e, WDel, acc + [PairMeans(p)], "")
  {
    hide Scanned, Parsed, Has, WordOk, PairMeans;
    var j := i + |p.b2|;
    var k := j + |WordText(p.val)|;
    HasParts(s, i, p.b2, WordText(p.val) + p.b3);
    HasParts(s, j, WordText(p.val), p.b3);
    BlanksSkipped(s, i, p.b2, true);
    if p.b3 != "" { HasChar(s, k, p.b3); }
    WordRead(s, j, p.val, false);
    var at := NextPlace(p.val, k, At(s, k));
    ValueStep(s, i, acc, Spelled(p.key.letters), Spelled(p.val.letters), p.val.QuotedWord?, at - 1);
    PairOfMeans(p);
    var acc' := acc + [PairMeans(p)];
    if at == k {
      TailSkipped(s, k, p.b3, acc');
    } else {
      TailSkipped(s, k + 1, p.b3[1..], acc');
    }
  }

  lemma PairRead(s: string, i: nat, p: PairForm, acc: seq<Pair>)
    requires PairOk(p) && Has(s, i, PairText(p))
    requires var e := i + |PairText(p)|; At(s, e) == ',' || At(s, e) == '\0'
    ensures var e := i + |PairText(p)|;
      e <= |s| && Parsed(s, i, WKey, acc, "") == Parsed(s, e, WDel, acc + [PairMeans(p)], "")
  {
    hide Parsed, Has, PairOk, PairMeans;
    var front, back := p.b0 + (WordText(p.key) + (p.b1 + "=>")), p.b2 + (WordText(p.val) + p.b3);
    PairSplits(p);
    HasParts(s, i, front, back);
    KeyRead(s, i, p, acc);
    ValueRead(s, i + |front|, p, acc);
  }

  lemma PairSplits(p: PairForm)
    ensures PairText(p) == (p.b0 + (WordText(p.key) + (p.b1 + "=>"))) + (p.b2 + (WordText(p.val) + p.b3))
  {
    var arrow, back := p.b1 + "=>", p.b2 + (WordText(p.val) + p.b3);
    Append(WordText(p.key), arrow, back);
    Append(p.b0, WordText(p.key) + arrow, back);
  }

  lemma {:induction false} ListRead(s: string, i: nat, f: ListForm, acc: seq<Pair>)
    requires ListOk(f) && Has(s, i, ListText(f)) && i + |ListText(f)| == |s|
    ensures Parsed(s, i, WKey, acc, "") == Ok(acc + PairsOf(f))
    decreases f
  {
    hide Parsed, Has, PairText, PairOk;
    match f
    case Nothing(b) =>
      BlanksSkipped(s, i, b, false);
      NothingMore(s, i, acc);
      assert acc + [] == acc;
    case Last(p) =>
      PairRead(s, i, p, acc);
      ListEnds(s, acc + [PairMeans(p)]);
    case More(p, rest) =>
      HasParts(s, i, PairText(p), "," + ListText(rest));
      var e := i + |PairText(p)|;
      HasParts(s, e, ",", ListText(rest));
      HasChar(s, e, ",");
      PairRead(s, i, p, acc);
      CommaRead(s, e, acc + [PairMeans(p)]);
      ListRead(s, e + 1, rest, acc + [PairMeans(p)]);
      assert acc + [PairMeans(p)] + PairsOf(rest) == acc + ([PairMeans(p)] + PairsOf(rest));
  }

  lemma NothingMore(s: string, i: nat, acc: seq<Pair>)
    requires i <= |s| && Scanned(s, i, WaitVal, "", false, false) == Scanned(s, |s|, WaitVal, "", false, false)
    ensures Parsed(s, i, WKey, acc, "") == Ok(acc)
  {
  }

  lemma ListEnds(s: string, acc: seq<Pair>)
    ensures Parsed(s, |s|, WDel, acc, "") == Ok(acc)
  {
  }

  lemma CommaRead(s: string, i: nat, acc: seq<Pair>)
    requires i < |s| && At(s, i) == ','
    ensures Parsed(s, i, WDel, acc, "") == Parsed(s, i + 1, WKey, acc, "")
  {
    hide Scanned;
  }

  // ---------------------------------------------------------------- and no others

  lemma Char(s: string, i: nat, c: char)
    requires i < |s| && s[i] == c
    ensures Has(s, i, [c])
  {
    assert s[i..i + 1] == [c];
  }

  lemma LetterThere(s: string, i: nat, l: Letter, ls: seq<Letter>)
    requires Has(s, i, LetterText(l)) && Has(s, i + |LetterText(l)|, LettersText(ls))
    ensures Has(s, i, LettersText([l] + ls)) && |LettersText([l] + ls)| == |LetterText(l)| + |LettersText(ls)|
  {
    HasParts(s, i, LetterText(l), LettersText(ls));
    assert ([l] + ls)[1..] == ls;
  }

  lemma BehindThere(s: string, i: nat, c: char)
    requires i + 1 < |s| && s[i] == '\\' && s[i + 1] == c
    ensures Has(s, i, LetterText(Behind(c)))
  {
    assert s[i..i + 2] == ['\\', c];
  }

  lemma EmptyThere(s: string, i: nat)
    requires i <= |s|
    ensures Has(s, i, LettersText([])) && Has(s, i, "") && LettersText([]) == ""
  {
  }

  /** The letters of a bare word under way, and where it ends. */
  lemma {:induction false} BareBack(s: string, i: nat, acc: string, key: bool) returns (ls: seq<Letter>)
    requires 1 <= i <= |s| && NoZero(s) && Scanned(s, i, InVal, acc, false, !key).Word?
    ensures Has(s, i, LettersText(ls)) && forall k :: 0 <= k < |ls| ==> BareLetter(ls[k], key)
    ensures var e := i + |LettersText(ls)|; var c := At(s, e);
      && e <= |s| && (IsBlank(c) || c == (if key then '=' else ',') || c == '\0')
      && Scanned(s, i, InVal, acc, false, !key) == Word(acc + Spelled(ls), false, if IsBlank(c) then e else e - 1)
    decreases |s| - i
  {
    hide Has, Scanned, LettersText, LetterText;
    var c := At(s, i);
    if i == |s| || IsBlank(c) || c == (if key then '=' else ',') {
      ls := [];
      EmptyThere(s, i);
      assert acc + Spelled([]) == acc;
      BareEnds(s, i, acc, key);
    } else {
      var l := LetterBack(s, i, acc, false, !key);
      LetterRead(s, i, l, acc, false, !key);
      HasRoom(s, i, LetterText(l));
      LettersAre(l, []);
      var rest := BareBack(s, i + |LetterText(l)|, acc + [l.c], key);
      LetterThere(s, i, l, rest);
      SpelledCons(l, rest, acc);
      LettersAre(l, rest);
      ls := [l] + rest;
    }
  }

  /** A word under way goes on with a letter. */
  lemma LetterBack(s: string, i: nat, acc: string, quoted: bool, ignoreeq: bool) returns (l: Letter)
    requires i < |s| && NoZero(s) && (quoted || i >= 1)
    requires Scanned(s, i, if quoted then InEscVal else InVal, acc, quoted, ignoreeq).Word?
    requires if quoted then s[i] != '"' else !IsBlank(s[i]) && s[i] != if ignoreeq then ',' else '='
    ensures Has(s, i, LetterText(l)) && if quoted then QuotedLetter(l) else BareLetter(l, !ignoreeq)
  {
    var c := At(s, i);
    if c == '\\' {
      assert i + 1 < |s|;
      l := Behind(s[i + 1]);
      BehindThere(s, i, l.c);
    } else {
      l := Plain(c);
      Char(s, i, c);
    }
  }

  lemma LettersAre(l: Letter, ls: seq<Letter>)
    ensures LettersText([l] + ls) == LetterText(l) + LettersText(ls) && |LetterText(l)| >= 1
  {
    assert ([l] + ls)[1..] == ls;
  }

  lemma {:induction false} QuotedBack(s: string, i: nat, acc: string, ignoreeq: bool) returns (ls: seq<Letter>)
    requires i <= |s| && NoZero(s) && Scanned(s, i, InEscVal, acc, true, ignoreeq).Word?
    ensures Has(s, i, LettersText(ls)) && forall k :: 0 <= k < |ls| ==> QuotedLetter(ls[k])
    ensures var e := i + |LettersText(ls)|;
      e < |s| && s[e] == '"' && Scanned(s, i, InEscVal, acc, true, ignoreeq) == Word(acc + Spelled(ls), true, e)
    decreases |s| - i
  {
    hide Has, Scanned, LettersText, LetterText;
    QuoteThere(s, i, acc, ignoreeq);
    if s[i] == '"' {
      ls := [];
      EmptyThere(s, i);
      assert acc + Spelled([]) == acc;
      QuoteCloses(s, i, acc, ignoreeq);
    } else {
      var l := LetterBack(s, i, acc, true, ignoreeq);
      LetterRead(s, i, l, acc, true, ignoreeq);
      HasRoom(s, i, LetterText(l));
      LettersAre(l, []);
      var rest := QuotedBack(s, i + |LetterText(l)|, acc + [l.c], ignoreeq);
      LetterThere(s, i, l, rest);
      SpelledCons(l, rest, acc);
      LettersAre(l, rest);
      ls := [l] + rest;
    }
  }

  lemma QuoteThere(s: string, i: nat, acc: string, ignoreeq: bool)
    requires i <= |s| && Scanned(s, i, InEscVal, acc, true, ignoreeq).Word?
    ensures i < |s|
  {
  }

  /** Blanks and a word. */
  lemma {:induction false} WordBack(s: string, i: nat, key: bool) returns (b: string, w: WordForm)
    requires i <= |s| && NoZero(s) && Scanned(s, i, WaitVal, "", false, !key).Word?
    ensures Blanks(b) && WordOk(w, key) && Has(s, i, b) && Has(s, i + |b|, WordText(w))
    ensures var e := i + |b| + |WordText(w)|; var c := At(s, e);
      && e <= |s| && EndsWord(w, c, key)
      && Scanned(s, i, WaitVal, "", false, !key) == Word(Spelled(w.letters), w.QuotedWord?, NextPlace(w, e, c) - 1)
    decreases |s| - i
  {
    hide Has, Scanned, LettersText, LetterText, QuotedLetter, BareLetter, FirstLetter;
    var c := At(s, i);
    EmptyThere(s, i);
    if c == '"' {
      b := "";
      w := QuotedWordBack(s, i, !key);
    } else if IsBlank(c) {
      BlanksSkippedOne(s, i, !key);
      var more;
      more, w := WordBack(s, i + 1, key);
      b := [c] + more;
      Char(s, i, c);
      HasParts(s, i, [c], more);
    } else {
      b := "";
      w := BareWordBack(s, i, key);
    }
  }

  lemma QuotedWordBack(s: string, i: nat, ignoreeq: bool) returns (w: WordForm)
    requires i < |s| && NoZero(s) && s[i] == '"' && Scanned(s, i, WaitVal, "", false, ignoreeq).Word?
    ensures w.QuotedWord? && (forall k :: 0 <= k < |w.letters| ==> QuotedLetter(w.letters[k])) && Has(s, i, WordText(w))
    ensures var e := i + |WordText(w)|;
      e <= |s| && Scanned(s, i, WaitVal, "", false, ignoreeq) == Word(Spelled(w.letters), true, e - 1)
  {
    hide Has, Scanned, LettersText, LetterText, QuotedLetter;
    QuoteOpens(s, i, ignoreeq);
    var ls := QuotedBack(s, i + 1, "", ignoreeq);
    w := QuotedWord(ls);
    Char(s, i, '"');
    Char(s, i + 1 + |LettersText(ls)|, '"');
    HasParts(s, i + 1, LettersText(ls), "\"");
    HasParts(s, i, "\"", LettersText(ls) + "\"");
    assert "" + Spelled(ls) == Spelled(ls);
  }

  lemma BareWordBack(s: string, i: nat, key: bool) returns (w: WordForm)
    requires i <= |s| && NoZero(s) && At(s, i) != '"' && !IsBlank(At(s, i)) && Scanned(s, i, WaitVal, "", false, !key).Word?
    ensures w.BareWord? && WordOk(w, key) && Has(s, i, WordText(w))
    ensures var e := i + |WordText(w)|; var c := At(s, e);
      && e <= |s| && EndsWord(w, c, key)
      && Scanned(s, i, WaitVal, "", false, !key) == Word(Spelled(w.letters), false, NextPlace(w, e, c) - 1)
  {
    hide Has, Scanned, LettersText, LetterText, BareLetter, FirstLetter;
    var c := At(s, i);
    var l := if c == '\\' then Behind(At(s, i + 1)) else Plain(c);
    FirstThere(s, i, key, l);
    FirstRead(s, i, l, !key);
    LettersAre(l, []);
    var rest := BareBack(s, i + |LetterText(l)|, [l.c], key);
    LetterThere(s, i, l, rest);
    SpelledCons(l, rest, "");
    LettersAre(l, rest);
    assert "" + [l.c] == [l.c] && "" + Spelled([l] + rest) == Spelled([l] + rest);
    w := BareWord([l] + rest);
  }

  lemma BlanksSkippedOne(s: string, i: nat, ignoreeq: bool)
    requires i < |s| && IsBlank(At(s, i))
    ensures Scanned(s, i, WaitVal, "", false, ignoreeq) == Scanned(s, i + 1, WaitVal, "", false, ignoreeq)
  {
    BlankIsSpace(At(s, i));
  }

  lemma FirstThere(s: string, i: nat, key: bool, l: Letter)
    requires i <= |s| && NoZero(s) && Scanned(s, i, WaitVal, "", false, !key).Word?
    requires At(s, i) != '"' && !IsBlank(At(s, i))
    requires l == if At(s, i) == '\\' then Behind(At(s, i + 1)) else Plain(At(s, i))
    ensures FirstLetter(l, key) && Has(s, i, LetterText(l))
  {
    assert i < |s|;
    if At(s, i) == '\\' {
      assert i + 1 < |s|;
      BehindThere(s, i, s[i + 1]);
    } else {
      Char(s, i, s[i]);
    }
  }

  lemma {:induction false} NoWordBack(s: string, i: nat)
    requires i <= |s| && NoZero(s) && Scanned(s, i, WaitVal, "", false, false).NoWord?
    ensures Blanks(s[i..])
    decreases |s| - i
  {
    if i < |s| {
      BlankIsSpace(s[i]);
      FirstIsBlank(s, i);
      BlanksSkippedOne(s, i, false);
      hide Scanned;
      NoWordBack(s, i + 1);
      assert s[i..] == [s[i]] + s[i + 1..];
    }
  }

  lemma FirstIsBlank(s: string, i: nat)
    requires i < |s| && NoZero(s) && Scanned(s, i, WaitVal, "", false, false).NoWord?
    ensures IsBlank(s[i])
  {
    BlankIsSpace(s[i]);
    if !IsBlank(s[i]) {
      if s[i] == '"' {
        QuotedNeverNone(s, i + 1, "", false);
      } else if s[i] == '\\' {
        if i + 1 < |s| { BareNeverNone(s, i + 2, "" + [s[i + 1]], false); }
      } else if s[i] != '=' {
        BareNeverNone(s, i + 1, "" + [s[i]], false);
      }
    }
  }

  lemma {:induction false} BareNeverNone(s: string, i: nat, acc: string, ignoreeq: bool)
    requires 1 <= i <= |s|
    ensures !Scanned(s, i, InVal, acc, false, ignoreeq).NoWord?
    decreases |s| - i
  {
    if i < |s| {
      BareNeverNone(s, i + 1, acc + [s[i]], ignoreeq);
      if i + 1 < |s| { BareNeverNone(s, i + 2, acc + [s[i + 1]], ignoreeq); }
    }
  }

  lemma {:induction false} QuotedNeverNone(s: string, i: nat, acc: string, ignoreeq: bool)
    requires i <= |s|
    ensures !Scanned(s, i, InEscVal, acc, true, ignoreeq).NoWord?
    decreases |s| - i
  {
    if i < |s| {
      QuotedNeverNone(s, i + 1, acc + [s[i]], ignoreeq);
      if i + 1 < |s| { QuotedNeverNone(s, i + 2, acc + [s[i + 1]], ignoreeq); }
    }
  }

  lemma {:induction false} ArrowBack(s: string, i: nat, acc: seq<Pair>, key: string) returns (b: string)
    requires i <= |s| && NoZero(s) && Parsed(s, i, WEq, acc, key).Ok?
    ensures Blanks(b) && Has(s, i, b + "=>")
    decreases |s| - i
  {
    var c := At(s, i);
    if c == '=' {
      ArrowNext(s, i, acc, key);
      b := "";
      assert s[i..i + 2] == "=>" && "" + "=>" == "=>";
    } else {
      BlankIsSpace(c);
      BlankIs(s, i, acc, key);
      hide Parsed;
      BlankStep(s, i, acc, key);
      var more := ArrowBack(s, i + 1, acc, key);
      b := [c] + more;
      Char(s, i, c);
      HasParts(s, i, [c], more + "=>");
      Append([c], more, "=>");
    }
  }

  lemma ArrowNext(s: string, i: nat, acc: seq<Pair>, key: string)
    requires i < |s| && NoZero(s) && s[i] == '=' && Parsed(s, i, WEq, acc, key).Ok?
    ensures i + 1 < |s| && s[i + 1] == '>'
  {
    hide Scanned;
    assert Parsed(s, i, WEq, acc, key) == Parsed(s, i + 1, WGt, acc, key);
  }

  lemma BlankIs(s: string, i: nat, acc: seq<Pair>, key: string)
    requires i <= |s| && At(s, i) != '=' && Parsed(s, i, WEq, acc, key).Ok?
    ensures i < |s| && IsSpace(At(s, i))
  {
    hide Scanned;
  }

  /** Blanks behind a pair, and the end or a comma. */
  lemma {:induction false} TailBack(s: string, i: nat, acc: seq<Pair>) returns (b: string)
    requires i <= |s| && NoZero(s) && Parsed(s, i, WDel, acc, "").Ok?
    ensures Blanks(b) && Has(s, i, b) && i + |b| <= |s| && (i + |b| < |s| ==> s[i + |b|] == ',')
    decreases |s| - i
  {
    var c := At(s, i);
    EmptyThere(s, i);
    if i == |s| || c == ',' {
      b := "";
    } else {
      TailIs(s, i, acc);
      BlankIsSpace(c);
      hide Parsed;
      BlankStep(s, i, acc, "");
      var more := TailBack(s, i + 1, acc);
      b := [c] + more;
      Char(s, i, c);
      HasParts(s, i, [c], more);
    }
  }

  lemma TailIs(s: string, i: nat, acc: seq<Pair>)
    requires i < |s| && NoZero(s) && s[i] != ',' && Parsed(s, i, WDel, acc, "").Ok?
    ensures IsSpace(s[i])
  {
    hide Scanned;
  }

  lemma KeyIs(s: string, i: nat, acc: seq<Pair>)
    requires i <= |s| && Parsed(s, i, WKey, acc, "").Ok?
    ensures !Scanned(s, i, WaitVal, "", false, false).BadWord?
  {
    hide Scanned;
  }

  lemma ValueIs(s: string, i: nat, acc: seq<Pair>, key: string)
    requires i <= |s| && Parsed(s, i, WVal, acc, key).Ok?
    ensures Scanned(s, i, WaitVal, "", false, true).Word?
  {
    hide Scanned;
  }

  /** The first pair of a text that is read. */
  lemma PairBack(s: string, i: nat, acc: seq<Pair>) returns (p: PairForm)
    requires i <= |s| && NoZero(s) && Parsed(s, i, WKey, acc, "").Ok? && Scanned(s, i, WaitVal, "", false, false).Word?
    ensures PairOk(p) && Has(s, i, PairText(p))
    ensures var e := i + |PairText(p)|; e <= |s| && (e < |s| ==> s[e] == ',')
  {
    hide Scanned, Parsed, Has, WordOk, PairMeans, WordText;
    var b0, key := WordBack(s, i, true);
    var j := i + |b0| + |WordText(key)|;
    var at := NextPlace(key, j, At(s, j));
    KeyStep(s, i, acc, Spelled(key.letters), key.QuotedWord?, at - 1);
    var b1 := ArrowBack(s, at, acc, Spelled(key.letters));
    ArrowRead(s, at, b1, acc, Spelled(key.letters));
    b1 := Rejoin(s, j, at, b1, "=>");
    var k := j + |b1| + 2;
    ValueIs(s, k, acc, Spelled(key.letters));
    var b2, val := WordBack(s, k, false);
    var m := k + |b2| + |WordText(val)|;
    at := NextPlace(val, m, At(s, m));
    ValueStep(s, k, acc, Spelled(key.letters), Spelled(val.letters), val.QuotedWord?, at - 1);
    var b3 := TailBack(s, at, acc + [PairOf(Spelled(key.letters), Spelled(val.letters), val.QuotedWord?)]);
    assert b3 + "" == b3;
    b3 := Rejoin(s, m, at, b3, "");
    assert b3 + "" == b3;
    p := PairForm(b0, key, b1, b2, val, b3);
    HasParts(s, m - |WordText(val)|, WordText(val), b3);
    HasParts(s, k, b2, WordText(val) + b3);
    HasParts(s, j, b1 + "=>", b2 + (WordText(val) + b3));
    HasParts(s, i + |b0|, WordText(key), (b1 + "=>") + (b2 + (WordText(val) + b3)));
    HasParts(s, i, b0, WordText(key) + ((b1 + "=>") + (b2 + (WordText(val) + b3))));
  }

  /** The blank that ended a bare word belongs to the blanks behind it. */
  lemma Rejoin(s: string, j: nat, at: nat, b: string, t: string) returns (b': string)
    requires j <= |s| && Has(s, at, b + t) && Blanks(b) && (at == j || (at == j + 1 && IsBlank(At(s, j))))
    ensures Blanks(b') && Has(s, j, b' + t) && j + |b'| == at + |b|
  {
    if at == j {
      b' := b;
    } else {
      assert j < |s|;
      b' := [s[j]] + b;
      Char(s, j, s[j]);
      HasParts(s, j, [s[j]], b + t);
      Append([s[j]], b, t);
    }
  }

  /** A text that is read is one of these. */
  lemma {:induction false} ListBack(s: string, i: nat, acc: seq<Pair>) returns (f: ListForm)
    requires i <= |s| && NoZero(s) && Parsed(s, i, WKey, acc, "").Ok?
    ensures ListOk(f) && Has(s, i, ListText(f)) && i + |ListText(f)| == |s|
    decreases |s| - i
  {
    hide Scanned, Parsed, Has, PairText, PairOk, PairMeans;
    KeyIs(s, i, acc);
    if Scanned(s, i, WaitVal, "", false, false).NoWord? {
      NoWordBack(s, i);
      f := Nothing(s[i..]);
      RestThere(s, i);
    } else {
      var p := PairBack(s, i, acc);
      PairRead(s, i, p, acc);
      var e := i + |PairText(p)|;
      PairNotEmpty(p);
      if e == |s| {
        f := Last(p);
      } else {
        CommaRead(s, e, acc + [PairMeans(p)]);
        var rest := ListBack(s, e + 1, acc + [PairMeans(p)]);
        f := More(p, rest);
        Char(s, e, ',');
        HasParts(s, e, ",", ListText(rest));
        HasParts(s, i, PairText(p), "," + ListText(rest));
      }
    }
  }

  lemma RestThere(s: string, i: nat)
    requires i <= |s|
    ensures Has(s, i, s[i..]) && i + |s[i..]| == |s|
  {
  }

  lemma PairNotEmpty(p: PairForm)
    ensures |PairText(p)| >= 2
  {
  }

  lemma WholeHas(s: string, t: string)
    ensures Has(s, 0, t) && |t| == |s| <==> s == t
  {
    assert s[0..|s|] == s;
  }

  /** A text is read if and only if it is such a list, and it is read as the pairs of the list. */
  lemma ParsedIffSpelled(s: string, ps: seq<Pair>)
    requires NoZero(s)
    ensures Parsed(s, 0, WKey, [], "") == Ok(ps) <==> exists f :: Spells(f, s) && PairsOf(f) == ps
  {
    hide Scanned, Parsed, Has, ListText, ListOk, PairsOf;
    if f :| Spells(f, s) && PairsOf(f) == ps {
      WholeHas(s, ListText(f));
      ListRead(s, 0, f, []);
      assert [] + ps == ps;
    }
    if Parsed(s, 0, WKey, [], "") == Ok(ps) {
      var f := ListBack(s, 0, []);
      WholeHas(s, ListText(f));
      ListRead(s, 0, f, []);
      assert [] + PairsOf(f) == PairsOf(f);
      assert Spells(f, s);
    }
  }
}

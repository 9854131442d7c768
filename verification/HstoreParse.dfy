/**
 * The reading of contrib/hstore text (hstore_io.c): the scanner and the parser as state machines
 * over a C string.
 */
module HstoreParse {
  import opened Basics
  import opened CString
  import opened Hstore

  // ---------------------------------------------------------------- the scanner

  predicate IsSpace(c: char) {
    c == ' ' || '\t' <= c <= '\r'
  }

  datatype ValState = WaitVal | InVal | InEscVal | WaitEscIn | WaitEscEscIn

  /** A word, whether it was quoted, and the place where scanning stopped. */
  datatype Scan = Word(word: string, escaped: bool, ptr: nat) | NoWord(ptr: nat) | BadWord

  /** One step of get_val at a character; None to go on with the next state and word. */
  datatype Step = Stop(r: Scan) | Go(st: ValState, word: string, escaped: bool)

  function ScanStep(c: char, ptr: nat, st: ValState, word: string, escaped: bool, ignoreeq: bool): Step
    requires st == InVal ==> ptr >= 1
  {
    match st
    case WaitVal =>
      if c == '"' then Go(InEscVal, word, true)
      else if c == '\0' then Stop(NoWord(ptr))
      else if c == '=' && !ignoreeq then Stop(BadWord)
      else if c == '\\' then Go(WaitEscIn, word, escaped)
      else if !IsSpace(c) then Go(InVal, word + [c], escaped)
      else Go(WaitVal, word, escaped)
    case InVal =>
      if c == '\\' then Go(WaitEscIn, word, escaped)
      else if c == '=' && !ignoreeq then Stop(Word(word, escaped, ptr - 1))
      else if c == ',' && ignoreeq then Stop(Word(word, escaped, ptr - 1))
      else if IsSpace(c) then Stop(Word(word, escaped, ptr))
      else if c == '\0' then Stop(Word(word, escaped, ptr - 1))
      else Go(InVal, word + [c], escaped)
    case InEscVal =>
      if c == '\\' then Go(WaitEscEscIn, word, escaped)
      else if c == '"' then Stop(Word(word, escaped, ptr))
      else if c == '\0' then Stop(BadWord)
      else Go(InEscVal, word + [c], escaped)
    case WaitEscIn =>
      if c == '\0' then Stop(BadWord) else Go(InVal, word + [c], escaped)
    case WaitEscEscIn =>
      if c == '\0' then Stop(BadWord) else Go(InEscVal, word + [c], escaped)
  }

  /** What get_val finds from a state on. */
  function Scanned(s: string, ptr: nat, st: ValState, word: string, escaped: bool, ignoreeq: bool): (r: Scan)
    requires ptr <= |s| && (st == InVal ==> ptr >= 1)
    ensures r.Word? ==> ptr - 1 <= r.ptr < |s| && (st != InVal ==> ptr <= r.ptr)
    decreases |s| - ptr
  {
    match ScanStep(At(s, ptr), ptr, st, word, escaped, ignoreeq)
    case Stop(r) => r
    case Go(st', word', escaped') => Scanned(s, ptr + 1, st', word', escaped', ignoreeq)
  }

  /** get_val */
  method GetVal(s: string, ptr0: nat, ignoreeq: bool) returns (r: Scan)
    requires ptr0 <= |s|
    ensures r == Scanned(s, ptr0, WaitVal, "", false, ignoreeq)
  {
    var st, word, escaped, ptr := WaitVal, "", false, ptr0;
    while true
      invariant ptr <= |s| && (st == InVal ==> ptr >= 1)
      invariant Scanned(s, ptr, st, word, escaped, ignoreeq) == Scanned(s, ptr0, WaitVal, "", false, ignoreeq)
      decreases |s| - ptr
    {
      var c := At(s, ptr);
      if st == WaitVal {
        if c == '"' {
          escaped := true;
          st := InEscVal;
        } else if c == '\0' {
          return NoWord(ptr);
        } else if c == '=' && !ignoreeq {
          return BadWord;
        } else if c == '\\' {
          st := WaitEscIn;
        } else if !IsSpace(c) {
          word := word + [c];
          st := InVal;
        }
      } else if st == InVal {
        if c == '\\' {
          st := WaitEscIn;
        } else if (c == '=' && !ignoreeq) || (c == ',' && ignoreeq) {
          return Word(word, escaped, ptr - 1);
        } else if IsSpace(c) {
          return Word(word, escaped, ptr);
        } else if c == '\0' {
          return Word(word, escaped, ptr - 1);
        } else {
          word := word + [c];
        }
      } else if st == InEscVal {
        if c == '\\' {
          st := WaitEscEscIn;
        } else if c == '"' {
          return Word(word, escaped, ptr);
        } else if c == '\0' {
          return BadWord;
        } else {
          word := word + [c];
        }
      } else {
        if c == '\0' { return BadWord; }
        word := word + [c];
        st := if st == WaitEscIn then InVal else InEscVal;
      }
      ptr := ptr + 1;
    }
  }

  // ---------------------------------------------------------------- the parser

  datatype Result<T> = Ok(value: T) | Err

  datatype PairState = WKey | WEq | WGt | WVal | WDel

  /** Lengths are kept in 16 bits. */
  function Kept(word: string): string {
    word[..|word| % 0x1_0000]
  }

  predicate IsNull(word: string, escaped: bool) {
    && |word| == 4 && !escaped
    && (word[0] == 'n' || word[0] == 'N') && (word[1] == 'u' || word[1] == 'U')
    && (word[2] == 'l' || word[2] == 'L') && (word[3] == 'l' || word[3] == 'L')
  }

  function PairOf(key: string, word: string, escaped: bool): Pair {
    Pair(Kept(key), if IsNull(word, escaped) then None else Some(Kept(word)))
  }

  /** What parse_hstore finds from a state on; key is the word read for the pair under way. */
  function Parsed(s: string, ptr: nat, st: PairState, pairs: seq<Pair>, key: string): Result<seq<Pair>>
    requires ptr <= |s|
    decreases |s| - ptr
  {
    var c := At(s, ptr);
    match st
    case WKey =>
      (match Scanned(s, ptr, WaitVal, "", false, false)
      case NoWord(_) => Ok(pairs)
      case BadWord => Err
      case Word(word, _, p) => Parsed(s, p + 1, WEq, pairs, word))
    case WEq =>
      if c == '=' then Parsed(s, ptr + 1, WGt, pairs, key)
      else if c == '\0' || !IsSpace(c) then Err
      else Parsed(s, ptr + 1, WEq, pairs, key)
    case WGt =>
      if c == '>' then Parsed(s, ptr + 1, WVal, pairs, key) else Err
    case WVal =>
      (match Scanned(s, ptr, WaitVal, "", false, true)
      case NoWord(_) => Err
      case BadWord => Err
      case Word(word, escaped, p) => Parsed(s, p + 1, WDel, pairs + [PairOf(key, word, escaped)], ""))
    case WDel =>
      if c == ',' then Parsed(s, ptr + 1, WKey, pairs, "")
      else if c == '\0' then Ok(pairs)
      else if !IsSpace(c) then Err
      else Parsed(s, ptr + 1, WDel, pairs, "")
  }

  /** parse_hstore */
  method ParseHstore(s: string) returns (r: Result<seq<Pair>>)
    ensures r == Parsed(s, 0, WKey, [], "")
  {
    hide Scanned, PairOf;
    var st, ptr: nat, pairs: seq<Pair>, key := WKey, 0, [], "";
    while true
      invariant ptr <= |s| && (st != WEq && st != WGt && st != WVal ==> key == "")
      invariant Parsed(s, ptr, st, pairs, key) == Parsed(s, 0, WKey, [], "")
      decreases |s| - ptr
    {
      var c := At(s, ptr);
      if st == WKey {
        var v := GetVal(s, ptr, false);
        if v.NoWord? { return Ok(pairs); }
        if v.BadWord? { return Err; }
        key := v.word;
        ptr := v.ptr;
        st := WEq;
      } else if st == WEq {
        if c == '=' {
          st := WGt;
        } else if c == '\0' || !IsSpace(c) {
          return Err;
        }
      } else if st == WGt {
        if c != '>' { return Err; }
        st := WVal;
      } else if st == WVal {
        var v := GetVal(s, ptr, true);
        if !v.Word? { return Err; }
        pairs := pairs + [PairOf(key, v.word, v.escaped)];
        key := "";
        ptr := v.ptr;
        st := WDel;
      } else {
        if c == ',' {
          st := WKey;
        } else if c == '\0' {
          return Ok(pairs);
        } else if !IsSpace(c) {
          return Err;
        }
      }
      ptr := ptr + 1;
    }
  }
}

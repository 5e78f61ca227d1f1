/** The data migration that normalises `users.is_on_roster`: text spellings of
    a yes become 1, text spellings of a no (and the empty string) become 0,
    and everything else is left as stored. */
module RosterMigration {
  import opened Wrappers
  import opened Tables
  import Text

  /** A stored `is_on_roster` value, as SQL sees it before the cast to text. */
  datatype Cell = Null | Num(n: int) | Str(s: string)

  datatype UserRow = UserRow(id: int, isOnRoster: Cell)

  /** `cast(is_on_roster as text)`; NULL stays NULL. */
  function CastText(c: Cell): (r: Option<string>)
    ensures c.Null? <==> r.None?
  {
    match c
    case Null => None
    case Num(n) => Some(Text.IntToString(n))
    case Str(s) => Some(s)
  }

  /** `r` is `s[a..b]` and everything outside `a..b` is a space. */
  ghost predicate SpaceMargins(s: string, r: string, a: int, b: int) {
    0 <= a <= b <= |s| && r == s[a..b]
    && (forall i :: 0 <= i < a ==> s[i] == ' ')
    && (forall i :: b <= i < |s| ==> s[i] == ' ')
  }

  /** `r` is `s` with nothing but spaces cut off either end. */
  ghost predicate TrimmedOf(s: string, r: string) {
    exists a, b :: SpaceMargins(s, r, a, b)
  }

  /** SQL `trim(x)`: leading and trailing spaces removed (only spaces). The
      result is a slice of the input with nothing but spaces cut off either
      end, and it neither starts nor ends with a space. */
  function TrimSpaces(s: string): (r: string)
    ensures |r| <= |s|
    ensures TrimmedOf(s, r)
    ensures r != [] ==> r[0] != ' ' && r[|r| - 1] != ' '
  {
    if s != [] && s[0] == ' ' then
      var r := TrimSpaces(s[1..]);
      TrimmedDropHead(s, r);
      r
    else if s != [] && s[|s| - 1] == ' ' then
      var r := TrimSpaces(s[..|s| - 1]);
      TrimmedDropTail(s, r);
      r
    else
      assert SpaceMargins(s, s, 0, |s|);
      s
  }

  /** Trimming past a leading space. */
  lemma TrimmedDropHead(s: string, r: string)
    requires s != [] && s[0] == ' ' && TrimmedOf(s[1..], r)
    ensures TrimmedOf(s, r)
  {
    var a, b :| SpaceMargins(s[1..], r, a, b);
    assert s[1..][a..b] == s[a + 1..b + 1];
    forall i | 1 <= i < a + 1 ensures s[i] == ' ' {
      assert s[i] == s[1..][i - 1];
    }
    forall i | b + 1 <= i < |s| ensures s[i] == ' ' {
      assert s[i] == s[1..][i - 1];
    }
    assert SpaceMargins(s, r, a + 1, b + 1);
  }

  /** Trimming past a trailing space. */
  lemma TrimmedDropTail(s: string, r: string)
    requires s != [] && s[|s| - 1] == ' ' && TrimmedOf(s[..|s| - 1], r)
    ensures TrimmedOf(s, r)
  {
    var a, b :| SpaceMargins(s[..|s| - 1], r, a, b);
    assert s[..|s| - 1][a..b] == s[a..b];
    forall i | 0 <= i < a ensures s[i] == ' ' {
      assert s[i] == s[..|s| - 1][i];
    }
    forall i | b <= i < |s| - 1 ensures s[i] == ' ' {
      assert s[i] == s[..|s| - 1][i];
    }
    assert SpaceMargins(s, r, a, b);
  }

  /** `lower(trim(cast(is_on_roster as text)))`, NULL when the value is NULL. */
  function Folded(c: Cell): Option<string> {
    var t := CastText(c);
    if t.None? then None else Some(Text.Lower(TrimSpaces(t.value)))
  }

  const TRUE_WORDS: set<string> := {"true", "on", "yes"}
  const FALSE_WORDS: set<string> := {"false", "off", "no", ""}

  function IsTrueWord(): UserRow -> bool {
    (u: UserRow) => Folded(u.isOnRoster).Some? && Folded(u.isOnRoster).value in TRUE_WORDS
  }

  function IsFalseWord(): UserRow -> bool {
    (u: UserRow) => Folded(u.isOnRoster).Some? && Folded(u.isOnRoster).value in FALSE_WORDS
  }

  function SetTo(n: int): UserRow -> UserRow {
    (u: UserRow) => u.(isOnRoster := Num(n))
  }

  /** The value a cell has after both updates. */
  function Normalized(c: Cell): (r: Cell)
    ensures Folded(c).Some? && Folded(c).value in TRUE_WORDS ==> r == Num(1)
    ensures Folded(c).Some? && Folded(c).value in FALSE_WORDS ==> r == Num(0)
    ensures (Folded(c).None? || (Folded(c).value !in TRUE_WORDS && Folded(c).value !in FALSE_WORDS)) ==> r == c
  {
    if Folded(c).Some? && Folded(c).value in TRUE_WORDS then Num(1)
    else if Folded(c).Some? && Folded(c).value in FALSE_WORDS then Num(0)
    else c
  }

  /** `up`: two bulk updates, the yes-words first. */
  method Up(users: Table<UserRow>)
    modifies users
    ensures users.rows == MapWhere(MapWhere(old(users.rows), IsTrueWord(), SetTo(1)), IsFalseWord(), SetTo(0))
    ensures |users.rows| == |old(users.rows)|
    ensures forall i :: 0 <= i < |users.rows| ==>
      users.rows[i] == old(users.rows)[i].(isOnRoster := Normalized(old(users.rows)[i].isOnRoster))
  {
    users.UpdateWhere(IsTrueWord(), SetTo(1));
    OneNotFalseWord();
    users.UpdateWhere(IsFalseWord(), SetTo(0));
  }

  /** The texts of 1 and 0 are "1" and "0". */
  lemma DigitTexts()
    ensures Text.IntToString(1) == "1" && Text.IntToString(0) == "0"
  {
    assert Text.NatToString(1) == "1";
    assert Text.NatToString(0) == "0";
  }

  lemma OneNotFalseWord()
    ensures Folded(Num(1)) == Some("1") && Folded(Num(0)) == Some("0")
  {
    DigitTexts();
    assert TrimSpaces("1") == "1";
    assert TrimSpaces("0") == "0";
    assert Text.Lower("1") == "1";
    assert Text.Lower("0") == "0";
  }

  lemma DigitsNotWords()
    ensures "1" !in TRUE_WORDS && "1" !in FALSE_WORDS && "0" !in TRUE_WORDS && "0" !in FALSE_WORDS
  {
  }

  /** A normalised value is left alone by a second run: 1 and 0 read "1" and
      "0", which are in neither word list, so running the migration twice is
      running it once. */
  lemma NormalizedIdempotent(c: Cell)
    ensures Normalized(Normalized(c)) == Normalized(c)
  {
    var n := Normalized(c);
    if n == Num(1) || n == Num(0) {
      OneNotFalseWord();
      DigitsNotWords();
      assert Folded(n) == Some("1") || Folded(n) == Some("0");
    } else {
      assert n == c;
    }
  }

  /** The stored values "1" and "0" are not words and stay as they are. */
  lemma DigitStringsUnchanged()
    ensures Normalized(Str("1")) == Str("1") && Normalized(Str("0")) == Str("0")
  {
    assert TrimSpaces("1") == "1";
    assert TrimSpaces("0") == "0";
    assert Text.Lower("1") == "1";
    assert Text.Lower("0") == "0";
  }

  /** `down` does nothing: the normalisation is not reversed. */
  method Down(users: Table<UserRow>)
    ensures users.rows == old(users.rows)
  {
  }
}

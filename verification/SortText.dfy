/** The text form of the user's sort criteria on values: decimal numbers, splitting at separators,
    and the round trip through them. */
module SortText {

  datatype Option<T> = None | Some(value: T)

  /** One sort criterion: its number and its direction. */
  datatype Crit = Crit(num: int, dir: int)

  /** One sort type: the index of its name, and the user's criteria in order. */
  datatype SortInfo = SortInfo(sortNum: nat, user: seq<Crit>)

  const TYPE_SEP := '|'
  const CRIT_SEP := '$'
  const DIR_SEP := ';'
  const NAME_SEP := ':'

  /** The names of the sort types. */
  const SORT_NAMES: seq<string> := ["PQL", "AH", "SEGY", "SAC"]

  // ----- decimal numbers

  function Digit(d: nat): char
    requires d < 10
  {
    '0' + d as char
  }

  predicate IsDigit(c: char) { '0' <= c <= '9' }

  function Decimal(n: nat): (s: string)
    ensures |s| > 0 && forall c :: c in s ==> IsDigit(c)
  {
    if n < 10 then [Digit(n)] else Decimal(n / 10) + [Digit(n % 10)]
  }

  /** What %d prints. */
  function Shown(n: int): string { if n < 0 then "-" + Decimal(-n) else Decimal(n) }

  /** The number a prefix of digits stands for, after the digits already read. */
  function ReadDigits(s: string, acc: nat): nat
  {
    if s == "" || !IsDigit(s[0]) then acc else ReadDigits(s[1..], 10 * acc + (s[0] - '0') as nat)
  }

  predicate IsBlank(c: char) { c == ' ' || 9 <= c as int <= 13 }

  /** What atol reads: blanks, a sign, and digits up to the first other character. */
  function Atol(s: string): int
  {
    if s == "" then 0
    else if IsBlank(s[0]) then Atol(s[1..])
    else if s[0] == '-' then 0 - ReadDigits(s[1..], 0)
    else if s[0] == '+' then ReadDigits(s[1..], 0)
    else ReadDigits(s, 0)
  }

  lemma {:induction false} ReadDigitsSnoc(s: string, d: nat, acc: nat)
    requires d < 10 && forall c :: c in s ==> IsDigit(c)
    ensures ReadDigits(s + [Digit(d)], acc) == 10 * ReadDigits(s, acc) + d
  {
    if s == "" {
      var v := [Digit(d)];
      assert s + v == v && v[1..] == "";
      assert ReadDigits(v, acc) == ReadDigits(v[1..], 10 * acc + d);
    } else {
      assert (s + [Digit(d)])[1..] == s[1..] + [Digit(d)];
      assert s[0] in s;
      ReadDigitsSnoc(s[1..], d, 10 * acc + (s[0] - '0') as nat);
    }
  }

  lemma {:induction false} ReadDecimal(n: nat)
    ensures ReadDigits(Decimal(n), 0) == n
  {
    if n < 10 {
      ReadDigitsSnoc("", n, 0);
      assert "" + [Digit(n)] == Decimal(n);
    } else {
      ReadDecimal(n / 10);
      ReadDigitsSnoc(Decimal(n / 10), n % 10, 0);
    }
  }

  /** atol reads back what %d printed. */
  lemma AtolShown(n: int)
    ensures Atol(Shown(n)) == n
  {
    if n < 0 {
      ReadDecimal(-n);
      assert Shown(n)[1..] == Decimal(-n);
    } else {
      ReadDecimal(n);
      assert IsDigit(Shown(n)[0]);
    }
  }

  // ----- splitting

  ghost predicate Free(s: string, c: char) { c !in s }

  function Count(s: string, c: char): nat
  {
    if s == "" then 0 else (if s[0] == c then 1 else 0) + Count(s[1..], c)
  }

  /** Position of the first c in s, |s| if there is none. */
  function Find(s: string, c: char): (k: nat)
    ensures k <= |s| && c !in s[..k] && (k < |s| ==> s[k] == c)
  {
    if s == "" || s[0] == c then 0 else 1 + Find(s[1..], c)
  }

  /** The pieces of s between occurrences of c, empty ones included. */
  function Pieces(s: string, c: char): (p: seq<string>)
    ensures |p| > 0
    decreases |s|
  {
    var k := Find(s, c);
    if k == |s| then [s] else [s[..k]] + Pieces(s[k + 1..], c)
  }

  /** g_strsplit: the empty string has no pieces. */
  function Split(s: string, c: char): seq<string> { if s == "" then [] else Pieces(s, c) }

  /** The first occurrence is found where nothing before it matches. */
  lemma {:induction false} FindUnique(s: string, c: char, k: nat)
    requires k <= |s| && c !in s[..k] && (k < |s| ==> s[k] == c)
    ensures Find(s, c) == k
  {
    if k > 0 {
      assert s[..k][0] == s[0] && s[..k][1..] == s[1..][..k - 1];
      FindUnique(s[1..], c, k - 1);
    }
  }

  lemma PiecesAt(a: string, c: char, b: string)
    requires Free(a, c)
    ensures Pieces(a + [c] + b, c) == [a] + Pieces(b, c)
  {
    var s := a + [c] + b;
    assert s[..|a|] == a && s[|a| + 1..] == b;
    FindUnique(s, c, |a|);
  }

  lemma PiecesFree(a: string, c: char)
    requires Free(a, c)
    ensures Pieces(a, c) == [a]
  {
    assert a[..|a|] == a;
    FindUnique(a, c, |a|);
  }

  lemma {:induction false} CountFree(s: string, c: char)
    ensures Count(s, c) == 0 <==> Free(s, c)
  {
    if s != "" {
      CountFree(s[1..], c);
      assert s == [s[0]] + s[1..];
    }
  }

  // ----- printing

  function CritText(c: Crit): string { Shown(c.num) + [DIR_SEP] + Shown(c.dir) }

  /** All criteria, each with its separator in front. */
  function CritsText(crits: seq<Crit>): string
  {
    if crits == [] then "" else [CRIT_SEP] + CritText(crits[0]) + CritsText(crits[1..])
  }

  function Body(name: string, crits: seq<Crit>): string { name + [NAME_SEP] + CritsText(crits) }

  /** The saved string: one entry for each sort type with criteria. */
  function Text(names: seq<string>, sorts: seq<SortInfo>): string
    requires forall s :: s in sorts ==> s.user != [] ==> s.sortNum < |names|
  {
    if sorts == [] then ""
    else (if sorts[0].user == [] then "" else Body(names[sorts[0].sortNum], sorts[0].user) + [TYPE_SEP])
         + Text(names, sorts[1..])
  }

  // ----- parsing

  /** One criterion; none when the direction is missing, which the original would read through a
      null pointer. */
  function ParseCrit(s: string): Option<Crit>
  {
    var d := Split(s, DIR_SEP);
    if |d| < 2 then None else Some(Crit(Atol(d[0]), Atol(d[1])))
  }

  function ParseCrits(s: seq<string>): Option<seq<Crit>>
  {
    if s == [] then Some([])
    else match ParseCrit(s[0])
      case None => None
      case Some(c) => (match ParseCrits(s[1..]) case None => None case Some(r) => Some([c] + r))
  }

  /** Index of a name in the table, |names| if it is not there. */
  function NameIndex(names: seq<string>, name: string): (k: nat)
    ensures k <= |names| && name !in names[..k] && (k < |names| ==> names[k] == name)
  {
    if names == [] || names[0] == name then 0 else 1 + NameIndex(names[1..], name)
  }

  /** One entry of the saved string: append its criteria to the sort type it names. Entries without
      criteria and entries of unknown names are skipped; none for an entry the original would read
      outside its pieces. */
  function ParseEntry(names: seq<string>, sorts: seq<SortInfo>, entry: string): (r: Option<seq<SortInfo>>)
    ensures r.Some? ==> |r.value| == |sorts|
  {
    if Count(entry, CRIT_SEP) == 0 then Some(sorts) else
    var crit := Split(entry, NAME_SEP);
    var k := NameIndex(names, crit[0]);
    if k == |names| then Some(sorts)
    else if |crit| < 2 || crit[1] == "" || k >= |sorts| then None
    else match ParseCrits(Split(crit[1], CRIT_SEP)[1..])
      case None => None
      case Some(c) => Some(sorts[k := sorts[k].(user := sorts[k].user + c)])
  }

  function ParseEntries(names: seq<string>, sorts: seq<SortInfo>, entries: seq<string>): (r: Option<seq<SortInfo>>)
    ensures r.Some? ==> |r.value| == |sorts|
    decreases |entries|
  {
    if entries == [] then Some(sorts)
    else match ParseEntry(names, sorts, entries[0])
      case None => None
      case Some(s) => ParseEntries(names, s, entries[1..])
  }

  function Parse(names: seq<string>, sorts: seq<SortInfo>, text: string): Option<seq<SortInfo>>
  {
    ParseEntries(names, sorts, Split(text, TYPE_SEP))
  }

  // ----- the round trip

  lemma ShownFree(n: int, c: char)
    requires !IsDigit(c) && c != '-'
    ensures Free(Shown(n), c)
  {}

  lemma CritTextFree(crit: Crit, c: char)
    requires !IsDigit(c) && c != '-' && c != DIR_SEP
    ensures Free(CritText(crit), c)
  {
    ShownFree(crit.num, c);
    ShownFree(crit.dir, c);
  }

  lemma {:induction false} CritsTextFree(crits: seq<Crit>, c: char)
    requires !IsDigit(c) && c != '-' && c != DIR_SEP && c != CRIT_SEP
    ensures Free(CritsText(crits), c)
  {
    if crits != [] {
      CritTextFree(crits[0], c);
      CritsTextFree(crits[1..], c);
    }
  }

  lemma ParseCritText(crit: Crit)
    ensures ParseCrit(CritText(crit)) == Some(crit)
  {
    ShownFree(crit.num, DIR_SEP);
    ShownFree(crit.dir, DIR_SEP);
    PiecesAt(Shown(crit.num), DIR_SEP, Shown(crit.dir));
    PiecesFree(Shown(crit.dir), DIR_SEP);
    AtolShown(crit.num);
    AtolShown(crit.dir);
  }

  lemma CritsTextUnfold(prefix: string, crits: seq<Crit>)
    ensures prefix + CritsText(crits) == if crits == [] then prefix
      else prefix + [CRIT_SEP] + (CritText(crits[0]) + CritsText(crits[1..]))
  {
    hide CritText;
  }

  /** The criteria between their separators. */
  lemma {:induction false} PiecesOfCrits(prefix: string, crits: seq<Crit>)
    requires Free(prefix, CRIT_SEP)
    ensures Pieces(prefix + CritsText(crits), CRIT_SEP) == [prefix] + CritTexts(crits)
    decreases |crits|
  {
    if crits == [] {
      CritsTextUnfold(prefix, crits);
      PiecesFree(prefix, CRIT_SEP);
    } else {
      hide Pieces, CritText, CritsText, Free;
      var c := CritText(crits[0]);
      CritsTextUnfold(prefix, crits);
      PiecesAt(prefix, CRIT_SEP, c + CritsText(crits[1..]));
      CritTextFree(crits[0], CRIT_SEP);
      PiecesOfCrits(c, crits[1..]);
    }
  }

  ghost function CritTexts(crits: seq<Crit>): (r: seq<string>)
  {
    if crits == [] then [] else [CritText(crits[0])] + CritTexts(crits[1..])
  }

  lemma {:induction false} ParseCritTexts(crits: seq<Crit>)
    ensures ParseCrits(CritTexts(crits)) == Some(crits)
  {
    if crits != [] {
      ParseCritText(crits[0]);
      ParseCritTexts(crits[1..]);
      assert CritTexts(crits)[1..] == CritTexts(crits[1..]);
      assert crits == [crits[0]] + crits[1..];
    }
  }

  /** Names that can be told apart and hold no separator of entries or names. */
  ghost predicate GoodNames(names: seq<string>)
  {
    && (forall n :: n in names ==> Free(n, TYPE_SEP) && Free(n, NAME_SEP))
    && (forall i, j :: 0 <= i < j < |names| ==> names[i] != names[j])
  }

  lemma TableIsGood()
    ensures GoodNames(SORT_NAMES)
  {
    forall i, j | 0 <= i < j < |SORT_NAMES|
      ensures SORT_NAMES[i] != SORT_NAMES[j]
    {
      assert SORT_NAMES[0][0] == 'P' && SORT_NAMES[1][0] == 'A' && SORT_NAMES[2][1] == 'E' && SORT_NAMES[3][1] == 'A';
      assert SORT_NAMES[2][0] == 'S' && SORT_NAMES[3][0] == 'S';
    }
  }

  lemma {:induction false} NameFound(names: seq<string>, k: nat)
    requires k < |names| && forall i, j :: 0 <= i < j < |names| ==> names[i] != names[j]
    ensures NameIndex(names, names[k]) == k
  {
    if k > 0 {
      assert names[0] != names[k];
      NameFound(names[1..], k - 1);
    }
  }

  /** Parsing one printed entry appends exactly its criteria to its sort type. */
  lemma ParseBody(names: seq<string>, sorts: seq<SortInfo>, k: nat, crits: seq<Crit>)
    requires GoodNames(names) && k < |names| && k < |sorts| && crits != []
    ensures ParseEntry(names, sorts, Body(names[k], crits))
         == Some(sorts[k := sorts[k].(user := sorts[k].user + crits)])
  {
    hide Pieces, CritsText, NameIndex, ParseCrits, Count;
    var name, entry := names[k], Body(names[k], crits);
    EntryPieces(name, crits);
    NameFound(names, k);
    CritPieces(crits);
  }

  /** A printed entry has criteria and splits into its name and its criteria. */
  lemma EntryPieces(name: string, crits: seq<Crit>)
    requires Free(name, NAME_SEP) && crits != []
    ensures Count(Body(name, crits), CRIT_SEP) != 0 && CritsText(crits) != ""
    ensures Split(Body(name, crits), NAME_SEP) == [name, CritsText(crits)]
  {
    hide Pieces;
    var text, entry := CritsText(crits), Body(name, crits);
    assert text[0] == CRIT_SEP && entry[|name| + 1] == CRIT_SEP;
    CountFree(entry, CRIT_SEP);
    CritsTextFree(crits, NAME_SEP);
    PiecesAt(name, NAME_SEP, text);
    PiecesFree(text, NAME_SEP);
  }

  /** The criteria part splits into the printed criteria after an empty piece. */
  lemma CritPieces(crits: seq<Crit>)
    requires crits != []
    ensures var p := Split(CritsText(crits), CRIT_SEP);
      |p| > 0 && p[1..] == CritTexts(crits) && ParseCrits(p[1..]) == Some(crits)
  {
    hide Pieces;
    assert "" + CritsText(crits) == CritsText(crits);
    PiecesOfCrits("", crits);
    assert ([""] + CritTexts(crits))[1..] == CritTexts(crits);
    ParseCritTexts(crits);
  }

  /** Every sort type with criteria carries its own position as its number. */
  ghost predicate InPlace(names: seq<string>, sorts: seq<SortInfo>)
  {
    |sorts| <= |names| && forall i :: 0 <= i < |sorts| && sorts[i].user != [] ==> sorts[i].sortNum == i
  }

  /** sorts with the criteria of the types from position i on removed. */
  ghost function ClearedFrom(sorts: seq<SortInfo>, i: nat): (r: seq<SortInfo>)
    ensures |r| == |sorts|
  {
    seq(|sorts|, k requires 0 <= k < |sorts| => if k < i then sorts[k] else sorts[k].(user := []))
  }

  lemma TextStep(names: seq<string>, sorts: seq<SortInfo>, i: nat)
    requires GoodNames(names) && InPlace(names, sorts) && i < |sorts|
    ensures Text(names, sorts[i..])
         == (if sorts[i].user == [] then "" else Body(names[i], sorts[i].user) + [TYPE_SEP]) + Text(names, sorts[i + 1..])
  {
    assert sorts[i..][1..] == sorts[i + 1..];
  }

  lemma {:induction false} RoundTripFrom(names: seq<string>, sorts: seq<SortInfo>, i: nat)
    requires GoodNames(names) && InPlace(names, sorts) && i <= |sorts|
    ensures ParseEntries(names, ClearedFrom(sorts, i), Pieces(Text(names, sorts[i..]), TYPE_SEP)) == Some(sorts)
    decreases |sorts| - i
  {
    if i == |sorts| {
      PiecesFree("", TYPE_SEP);
      assert ClearedFrom(sorts, i) == sorts;
      assert Count("", CRIT_SEP) == 0;
      assert [""][1..] == [];
    } else {
      RoundTripFrom(names, sorts, i + 1);
      TextStep(names, sorts, i);
      if sorts[i].user == [] {
        assert ClearedFrom(sorts, i) == ClearedFrom(sorts, i + 1);
        assert "" + Text(names, sorts[i + 1..]) == Text(names, sorts[i + 1..]);
      } else {
        EntryStep(names, sorts, i);
      }
    }
  }

  lemma EntryStep(names: seq<string>, sorts: seq<SortInfo>, i: nat)
    requires GoodNames(names) && InPlace(names, sorts) && i < |sorts| && sorts[i].user != []
    ensures ParseEntries(names, ClearedFrom(sorts, i), Pieces(Text(names, sorts[i..]), TYPE_SEP))
         == ParseEntries(names, ClearedFrom(sorts, i + 1), Pieces(Text(names, sorts[i + 1..]), TYPE_SEP))
  {
    hide Pieces, ParseEntry, Text, CritsText;
    var body, rest, cleared := Body(names[i], sorts[i].user), Text(names, sorts[i + 1..]), ClearedFrom(sorts, i);
    TextStep(names, sorts, i);
    assert names[i] in names;
    assert body + [TYPE_SEP] + rest == Text(names, sorts[i..]);
    CritsTextFree(sorts[i].user, TYPE_SEP);
    PiecesAt(body, TYPE_SEP, rest);
    assert ([body] + Pieces(rest, TYPE_SEP))[1..] == Pieces(rest, TYPE_SEP);
    ParseBody(names, cleared, i, sorts[i].user);
    assert cleared[i].user + sorts[i].user == sorts[i].user;
    assert cleared[i := sorts[i]] == ClearedFrom(sorts, i + 1);
  }

  /** Reading back the saved string into empty lists rebuilds every list, in order. */
  lemma RoundTrip(names: seq<string>, sorts: seq<SortInfo>)
    requires GoodNames(names) && InPlace(names, sorts)
    ensures Parse(names, ClearedFrom(sorts, 0), Text(names, sorts)) == Some(sorts)
  {
    RoundTripFrom(names, sorts, 0);
    assert sorts[0..] == sorts;
    var text := Text(names, sorts);
    if text == "" {
      PiecesFree("", TYPE_SEP);
      assert Count("", CRIT_SEP) == 0;
      assert [""][1..] == [];
    }
  }
}

/** The saved sort settings character by character: what is written, and what a text of that form
    means when it is read. */
module SortFormat {
  import opened Arithmetic
  import opened SortText

  // ----- numbers

  /** s are the decimal digits of n, without leading zeros. */
  ghost predicate Digits(s: string, n: nat)
  {
    && |s| > 0 && n < Ten(|s|) && (|s| > 1 ==> Ten(|s| - 1) <= n)
    && forall k: nat :: k < |s| ==> s[|s| - 1 - k] == '0' + Place(n, k) as char
  }

  /** The digit of n for 10^k. */
  function Place(n: nat, k: nat): (d: nat)
    ensures d < 10
  {
    (n / Ten(k)) % 10
  }

  /** s is n in decimal, with a minus sign for a negative one. */
  ghost predicate Prints(s: string, n: int)
  {
    if n < 0 then |s| > 0 && s[0] == '-' && Digits(s[1..], -n) else Digits(s, n)
  }

  lemma DivTen(n: nat, t: nat)
    requires t > 0
    ensures (n / 10) / t == n / (10 * t)
  {
    var q := (n / 10) / t;
    assert n == 10 * (q * t + (n / 10) % t) + n % 10;
    DivModUnique(n, 10 * t, q, 10 * ((n / 10) % t) + n % 10);
  }

  lemma PlaceStep(n: nat, k: nat)
    ensures Place(n, k) == if k == 0 then n % 10 else Place(n / 10, k - 1)
  {
    if k > 0 { DivTen(n, Ten(k - 1)); }
  }

  lemma {:induction false} DecimalDigits(n: nat)
    ensures Digits(Decimal(n), n)
  {
    hide Place;
    var s := Decimal(n);
    PlaceStep(n, 0);
    if n >= 10 {
      var r := Decimal(n / 10);
      DecimalDigits(n / 10);
      forall k: nat | k < |s|
        ensures s[|s| - 1 - k] == '0' + Place(n, k) as char
      {
        PlaceStep(n, k);
        if k > 0 { assert s[|s| - 1 - k] == r[|r| - 1 - (k - 1)]; }
      }
    }
  }

  /** %d prints the decimal digits. */
  lemma ShownPrints(n: int)
    ensures Prints(Shown(n), n)
  {
    if n < 0 { DecimalDigits(-n); } else { DecimalDigits(n); }
  }

  /** atol reads decimal digits after a sign, and stops at the first other character. */
  lemma AtolReads(n: nat, rest: string)
    requires rest != "" ==> !('0' <= rest[0] <= '9')
    ensures Atol(Decimal(n) + rest) == Atol("+" + Decimal(n) + rest) == n && Atol("-" + Decimal(n) + rest) + n == 0
    ensures Atol(" " + rest) == Atol(rest)
  {
    hide Decimal, ReadDigits, Atol;
    var s := Decimal(n) + rest;
    ReadUpTo(Decimal(n), rest, 0);
    ReadDecimal(n);
    assert s[0] == Decimal(n)[0];
    AtolSign(s, rest);
    assert "+" + Decimal(n) + rest == "+" + s && "-" + Decimal(n) + rest == "-" + s;
  }

  lemma AtolSign(s: string, rest: string)
    requires s != "" && IsDigit(s[0])
    ensures Atol(s) == Atol("+" + s) == ReadDigits(s, 0) && Atol("-" + s) + ReadDigits(s, 0) == 0
    ensures Atol(" " + rest) == Atol(rest)
  {
    hide ReadDigits;
    assert ("+" + s)[1..] == s && ("-" + s)[1..] == s && (" " + rest)[1..] == rest;
  }

  lemma {:induction false} ReadUpTo(s: string, rest: string, acc: nat)
    requires (forall c :: c in s ==> IsDigit(c)) && (rest != "" ==> !IsDigit(rest[0]))
    ensures ReadDigits(s + rest, acc) == ReadDigits(s, acc)
  {
    if s == "" {
      assert s + rest == rest;
    } else {
      assert (s + rest)[1..] == s[1..] + rest && s[0] in s;
      ReadUpTo(s[1..], rest, 10 * acc + (s[0] - '0') as nat);
    }
  }

  // ----- what is written

  /** "$num;dir" for each criterion */
  ghost function Criteria(crits: seq<Crit>): string
  {
    if crits == [] then "" else "$" + Shown(crits[0].num) + ";" + Shown(crits[0].dir) + Criteria(crits[1..])
  }

  /** "name:", the criteria, "|" */
  ghost function Line(name: string, crits: seq<Crit>): string { name + ":" + Criteria(crits) + "|" }

  /** One line for each sort type with criteria. */
  ghost function Saved(names: seq<string>, sorts: seq<SortInfo>): string
    requires forall s :: s in sorts ==> s.user != [] ==> s.sortNum < |names|
  {
    if sorts == [] then ""
    else if sorts[0].user == [] then Saved(names, sorts[1..])
    else Line(names[sorts[0].sortNum], sorts[0].user) + Saved(names, sorts[1..])
  }

  lemma {:induction false} CriteriaText(crits: seq<Crit>)
    ensures CritsText(crits) == Criteria(crits)
  {
    hide Shown;
    if crits != [] { CriteriaText(crits[1..]); }
  }

  lemma LineText(name: string, crits: seq<Crit>)
    ensures Body(name, crits) + [TYPE_SEP] == Line(name, crits)
  {
    CriteriaText(crits);
  }

  lemma {:induction false} SavedText(names: seq<string>, sorts: seq<SortInfo>)
    requires forall s :: s in sorts ==> s.user != [] ==> s.sortNum < |names|
    ensures Text(names, sorts) == Saved(names, sorts)
  {
    hide Body, Line;
    if sorts != [] {
      SavedText(names, sorts[1..]);
      if sorts[0].user != [] { LineText(names[sorts[0].sortNum], sorts[0].user); }
      assert "" + Text(names, sorts[1..]) == Text(names, sorts[1..]);
    }
  }

  // ----- what is read

  datatype Entry = Entry(name: string, crits: seq<Crit>)

  ghost function Written(entries: seq<Entry>): string
  {
    if entries == [] then "" else Line(entries[0].name, entries[0].crits) + Written(entries[1..])
  }

  /** The criteria of all entries of that name. */
  ghost function Collected(name: string, entries: seq<Entry>): seq<Crit>
  {
    if entries == [] then []
    else (if entries[0].name == name then entries[0].crits else []) + Collected(name, entries[1..])
  }

  /** No name holds a separator. */
  ghost predicate Readable(entries: seq<Entry>)
  {
    forall e :: e in entries ==> '|' !in e.name && ':' !in e.name && '$' !in e.name
  }

  /** Every list grew by the criteria of its name, in order. */
  ghost predicate Appended(names: seq<string>, before: seq<SortInfo>, entries: seq<Entry>, after: seq<SortInfo>)
    requires |before| == |names|
  {
    && |after| == |before|
    && forall k :: 0 <= k < |names| ==>
      after[k].sortNum == before[k].sortNum && after[k].user == before[k].user + Collected(names[k], entries)
  }

  /** What one entry does: known names get its criteria, unknown ones are skipped. */
  lemma ReadEntry(names: seq<string>, sorts: seq<SortInfo>, e: Entry)
    requires |sorts| == |names| && (forall i, j :: 0 <= i < j < |names| ==> names[i] != names[j])
    requires '|' !in e.name && ':' !in e.name && '$' !in e.name
    ensures var r := ParseEntry(names, sorts, Body(e.name, e.crits));
      r.Some? && Appended(names, sorts, [e], r.value)
  {
    hide Pieces, CritsText, ParseCrits, Count;
    var k := NameIndex(names, e.name);
    OneEntry(names, e);
    if e.crits == [] {
      NoCriteria(e.name);
    } else {
      EntryPieces(e.name, e.crits);
      CritPieces(e.crits);
      if k < |names| { NameFound(names, k); }
    }
  }

  lemma NoCriteria(name: string)
    requires '$' !in name
    ensures Count(Body(name, []), CRIT_SEP) == 0
  {
    CountFree(Body(name, []), CRIT_SEP);
  }

  lemma OneEntry(names: seq<string>, e: Entry)
    ensures forall name :: Collected(name, [e]) == if e.name == name then e.crits else []
  {
    assert [e][1..] == [];
  }

  lemma {:induction false} ReadEntries(names: seq<string>, sorts: seq<SortInfo>, entries: seq<Entry>)
    requires |sorts| == |names| && (forall i, j :: 0 <= i < j < |names| ==> names[i] != names[j]) && Readable(entries)
    ensures var r := ParseEntries(names, sorts, Pieces(Written(entries), TYPE_SEP));
      r.Some? && Appended(names, sorts, entries, r.value)
    decreases |entries|
  {
    hide Pieces, ParseEntry, Body;
    if entries == [] {
      NothingRead(names, sorts);
    } else {
      var e, rest := entries[0], Written(entries[1..]);
      EntryFree(e);
      LineText(e.name, e.crits);
      assert Written(entries) == Body(e.name, e.crits) + [TYPE_SEP] + rest;
      PiecesAt(Body(e.name, e.crits), TYPE_SEP, rest);
      assert ([Body(e.name, e.crits)] + Pieces(rest, TYPE_SEP))[1..] == Pieces(rest, TYPE_SEP);
      ReadEntry(names, sorts, e);
      var r := ParseEntry(names, sorts, Body(e.name, e.crits)).value;
      ReadEntries(names, r, entries[1..]);
      AppendedTwice(names, sorts, e, r, entries, ParseEntries(names, r, Pieces(rest, TYPE_SEP)).value);
    }
  }

  lemma AppendedTwice(names: seq<string>, before: seq<SortInfo>, e: Entry, r: seq<SortInfo>, entries: seq<Entry>, after: seq<SortInfo>)
    requires |before| == |names| && entries != [] && e == entries[0]
    requires Appended(names, before, [e], r) && Appended(names, r, entries[1..], after)
    ensures Appended(names, before, entries, after)
  {
    OneEntry(names, e);
  }

  lemma EntryFree(e: Entry)
    requires '|' !in e.name
    ensures Free(Body(e.name, e.crits), TYPE_SEP)
  {
    CritsTextFree(e.crits, TYPE_SEP);
  }

  lemma NothingRead(names: seq<string>, sorts: seq<SortInfo>)
    ensures ParseEntries(names, sorts, Pieces("", TYPE_SEP)) == Some(sorts)
  {
    PiecesFree("", TYPE_SEP);
    assert Count("", CRIT_SEP) == 0;
    assert [""][1..] == [];
  }

  /** A text of lines is always read, and appends exactly the criteria it holds to the lists it names. */
  lemma ReadsWritten(names: seq<string>, sorts: seq<SortInfo>, entries: seq<Entry>)
    requires |sorts| == |names| && (forall i, j :: 0 <= i < j < |names| ==> names[i] != names[j]) && Readable(entries)
    ensures var r := Parse(names, sorts, Written(entries)); r.Some? && Appended(names, sorts, entries, r.value)
  {
    hide Pieces, ParseEntries;
    ReadEntries(names, sorts, entries);
    if Written(entries) == "" {
      NothingRead(names, sorts);
      assert ParseEntries(names, sorts, []) == Some(sorts) by { NoEntries(names, sorts); }
    }
  }

  lemma NoEntries(names: seq<string>, sorts: seq<SortInfo>)
    ensures ParseEntries(names, sorts, []) == Some(sorts)
  {}
}

/** The sort settings as the object the defaults are saved from and read into. */
module SortSettings {
  import opened SortText
  import opened SortFormat

  /** Occurrences of a separator. */
  method CountChar(str: string, c: char) returns (total: nat)
    ensures total == Count(str, c) == multiset(str)[c]
  {
    CountOccurrences(str, c);
    total := 0;
    var i := 0;
    while i < |str|
      invariant 0 <= i <= |str| && total + Count(str[i..], c) == Count(str, c)
    {
      assert str[i..][1..] == str[i + 1..];
      total := total + if str[i] == c then 1 else 0;
      i := i + 1;
    }
  }

  lemma {:induction false} CountOccurrences(s: string, c: char)
    ensures Count(s, c) == multiset(s)[c]
  {
    if s != "" {
      CountOccurrences(s[1..], c);
      assert s == [s[0]] + s[1..];
    }
  }

  function Concat(parts: seq<string>): string { if parts == [] then "" else parts[0] + Concat(parts[1..]) }

  lemma {:induction false} ConcatSnoc(parts: seq<string>, s: string)
    ensures Concat(parts + [s]) == Concat(parts) + s
  {
    if parts == [] {
      assert Concat([s]) == s + Concat([s][1..]);
    } else {
      assert (parts + [s])[1..] == parts[1..] + [s];
      ConcatSnoc(parts[1..], s);
    }
  }

  lemma ConcatStep(parts: seq<string>, before: seq<string>, s: string)
    requires |parts| > 0 && parts[..|parts| - 1] == before && parts[|parts| - 1] == s
    ensures Concat(parts) == Concat(before) + s
  {
    assert parts == before + [s];
    ConcatSnoc(before, s);
  }

  lemma ConcatNothing(parts: seq<string>)
    requires parts == []
    ensures Concat(parts) == ""
  {}

  lemma TextNothing(names: seq<string>, sorts: seq<SortInfo>)
    requires sorts == []
    ensures Text(names, sorts) == ""
  {}

  /** The text from sort type k on starts with its entry, if it has one. */
  lemma TextNext(names: seq<string>, sorts: seq<SortInfo>, k: nat)
    requires k < |sorts| && forall s :: s in sorts ==> s.user != [] ==> s.sortNum < |names|
    ensures if sorts[k].user == []
      then Text(names, sorts[k..]) == Text(names, sorts[k + 1..]) && Used(sorts[k..]) == Used(sorts[k + 1..])
      else Text(names, sorts[k..]) == Body(names[sorts[k].sortNum], sorts[k].user) + [TYPE_SEP] + Text(names, sorts[k + 1..])
           && Used(sorts[k..]) == 1 + Used(sorts[k + 1..])
  {
    hide Body;
    assert sorts[k..][1..] == sorts[k + 1..];
    assert "" + Text(names, sorts[k + 1..]) == Text(names, sorts[k + 1..]);
  }

  lemma CritsTextStep(crits: seq<Crit>, i: nat)
    requires i < |crits|
    ensures CritsText(crits[i..]) == [CRIT_SEP] + CritText(crits[i]) + CritsText(crits[i + 1..])
  {
    hide CritText;
    assert crits[i..][1..] == crits[i + 1..];
  }

  lemma CritsTextEnd(crits: seq<Crit>)
    requires crits == []
    ensures CritsText(crits) == ""
  {}

  /** Sort types that have criteria. */
  function Used(sorts: seq<SortInfo>): nat
  {
    if sorts == [] then 0 else (if sorts[0].user == [] then 0 else 1) + Used(sorts[1..])
  }

  class Settings {
    const names: seq<string>
    var sorts: seq<SortInfo>
    var str: string

    constructor (names: seq<string>, sorts: seq<SortInfo>)
      ensures this.names == names && this.sorts == sorts && str == ""
    {
      this.names, this.sorts, this.str := names, sorts, "";
    }

    /** Join the strings up to the terminator. */
    method Join(parts: array<string>, n: nat) returns (s: string)
      requires n <= parts.Length
      ensures s == Concat(parts[..n])
    {
      s := "";
      var i := 0;
      while i < n
        invariant 0 <= i <= n && s == Concat(parts[..i])
      {
        ConcatSnoc(parts[..i], parts[i]);
        assert parts[..i + 1] == parts[..i] + [parts[i]];
        s := s + parts[i];
        i := i + 1;
      }
    }

    /** The entry of one sort type: its name, its criteria and the closing separator, in an array
        with room for two more strings than criteria and a terminator. */
    method EntryText(info: SortInfo) returns (s: string)
      requires info.user != [] && info.sortNum < |names|
      ensures s == Body(names[info.sortNum], info.user) + [TYPE_SEP] == Line(names[info.sortNum], info.user)
    {
      hide CritsText, Shown, Line;
      LineText(names[info.sortNum], info.user);
      var crits := new string[|info.user| + 3];
      crits[0] := names[info.sortNum] + [NAME_SEP];
      var i := 1;
      ghost var entry := Body(names[info.sortNum], info.user);
      assert crits[..1] == [] + [crits[0]];
      ConcatSnoc([], crits[0]);
      while i <= |info.user|
        invariant 1 <= i <= |info.user| + 1
        invariant Concat(crits[..i]) + CritsText(info.user[i - 1..]) == entry
      {
        var critDef := info.user[i - 1];
        ghost var before := crits[..i];
        crits[i] := [CRIT_SEP] + Shown(critDef.num) + [DIR_SEP] + Shown(critDef.dir);
        ConcatStep(crits[..i + 1], before, crits[i]);
        CritsTextStep(info.user, i - 1);
        assert crits[i] == [CRIT_SEP] + CritText(critDef);
        i := i + 1;
      }
      CritsTextEnd(info.user[i - 1..]);
      ghost var before := crits[..i];
      crits[i] := [TYPE_SEP];
      ConcatStep(crits[..i + 1], before, crits[i]);
      s := Join(crits, i + 1);
    }

    /** How many entries the saved string gets. */
    method CountUsed() returns (ttlSorts: nat)
      ensures ttlSorts == Used(sorts)
    {
      ttlSorts := 0;
      var k := 0;
      while k < |sorts|
        invariant 0 <= k <= |sorts| && ttlSorts + Used(sorts[k..]) == Used(sorts)
      {
        assert sorts[k..][1..] == sorts[k + 1..];
        if sorts[k].user != [] { ttlSorts := ttlSorts + 1; }
        k := k + 1;
      }
    }

    /** SORTENCRYPT: the string that is saved. */
    method Encrypt()
      requires forall s :: s in sorts ==> s.user != [] ==> s.sortNum < |names|
      modifies this`str
      ensures str == Text(names, sorts) == Saved(names, sorts)
    {
      hide Text, Used, Concat, Body, Saved, Line;
      var ttlSorts := CountUsed();
      var parts := new string[ttlSorts + 1];
      var sortNum, k := 0, 0;
      assert sorts[0..] == sorts;
      ConcatNothing(parts[..0]);
      while k < |sorts|
        invariant 0 <= k <= |sorts| && 0 <= sortNum && sortNum + Used(sorts[k..]) == ttlSorts
        invariant Concat(parts[..sortNum]) + Text(names, sorts[k..]) == Text(names, sorts)
      {
        TextNext(names, sorts, k);
        if sorts[k].user != [] {
          var entry := EntryText(sorts[k]);
          ghost var before := parts[..sortNum];
          parts[sortNum] := entry;
          ConcatStep(parts[..sortNum + 1], before, entry);
          sortNum := sortNum + 1;
        }
        k := k + 1;
      }
      TextNothing(names, sorts[k..]);
      str := Join(parts, sortNum);
      SavedText(names, sorts);
    }

    /** Look a sort type up by name; the table length if it is unknown. */
    method Lookup(name: string) returns (sortNum: nat)
      ensures sortNum == NameIndex(names, name)
    {
      sortNum := 0;
      while sortNum < |names|
        invariant 0 <= sortNum <= |names|
        invariant NameIndex(names, name) == sortNum + NameIndex(names[sortNum..], name)
      {
        if names[sortNum] == name { break; }
        assert names[sortNum..][1..] == names[sortNum + 1..];
        sortNum := sortNum + 1;
      }
    }

    /** Append the criteria crits[1], crits[2], ... to a sort type. */
    method AppendCrits(sortNum: nat, crits: seq<string>)
      requires sortNum < |sorts| && |crits| > 0 && ParseCrits(crits[1..]).Some?
      modifies this`sorts
      ensures sorts == old(sorts)[sortNum := old(sorts)[sortNum].(user := old(sorts)[sortNum].user + ParseCrits(crits[1..]).value)]
    {
      ghost var all := ParseCrits(crits[1..]).value;
      var j := 1;
      while j < |crits|
        invariant 1 <= j <= |crits| && ParseCrits(crits[j..]).Some? && |sorts| == |old(sorts)|
        invariant sorts == old(sorts)[sortNum := sorts[sortNum]]
        invariant sorts[sortNum].sortNum == old(sorts)[sortNum].sortNum
        invariant sorts[sortNum].user + ParseCrits(crits[j..]).value == old(sorts)[sortNum].user + all
      {
        assert crits[j..][1..] == crits[j + 1..];
        var critDefs := Split(crits[j], DIR_SEP);
        var critDef := Crit(Atol(critDefs[0]), Atol(critDefs[1]));
        sorts := sorts[sortNum := sorts[sortNum].(user := sorts[sortNum].user + [critDef])];
        j := j + 1;
      }
      assert crits[j..] == [] && ParseCrits([]) == Some([]);
      assert sorts[sortNum].user + [] == sorts[sortNum].user;
    }

    /** SORTDECRYPT: append the saved criteria to the user lists. A string the original would read
        outside its pieces is excluded. */
    method Decrypt()
      requires Parse(names, sorts, str).Some?
      modifies this`sorts
      ensures Some(sorts) == Parse(names, old(sorts), str)
      ensures |sorts| == |names| && (forall i, j :: 0 <= i < j < |names| ==> names[i] != names[j]) ==>
        forall entries: seq<Entry> :: str == Written(entries) && Readable(entries) ==>
          Appended(names, old(sorts), entries, sorts)
    {
      ghost var before := sorts;
      var parts := Split(str, TYPE_SEP);
      var i := 0;
      while i < |parts|
        invariant 0 <= i <= |parts|
        invariant ParseEntries(names, sorts, parts[i..]) == Parse(names, old(sorts), str)
      {
        assert parts[i..][1..] == parts[i + 1..];
        var critCnt := CountChar(parts[i], CRIT_SEP);
        if critCnt != 0 {
          var crit := Split(parts[i], NAME_SEP);
          var sortNum := Lookup(crit[0]);
          if sortNum < |names| {
            var crits := Split(crit[1], CRIT_SEP);
            AppendCrits(sortNum, crits);
          }
        }
        i := i + 1;
      }
      forall entries: seq<Entry> | str == Written(entries) && Readable(entries)
        && |before| == |names| && forall i, j :: 0 <= i < j < |names| ==> names[i] != names[j]
        ensures Appended(names, before, entries, sorts)
      {
        ReadsWritten(names, before, entries);
      }
    }
  }

  /** Save, clear the lists, and read back: the sort settings are as before. */
  method SaveAndReload(settings: Settings)
    requires GoodNames(settings.names) && InPlace(settings.names, settings.sorts)
    modifies settings
    ensures settings.sorts == old(settings.sorts)
  {
    var sorts := settings.sorts;
    assert forall s :: s in sorts ==> s.user != [] ==> s.sortNum < |settings.names|;
    settings.Encrypt();
    RoundTrip(settings.names, sorts);
    settings.sorts := seq(|sorts|, k requires 0 <= k < |sorts| => sorts[k].(user := []));
    assert settings.sorts == ClearedFrom(sorts, 0);
    settings.Decrypt();
  }
}

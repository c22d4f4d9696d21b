/** What `json.loads` makes of objects: dictionaries, in which the last value of a repeated key counts. */
module JsonDictionary {
  import opened Basics
  import opened Json

  // ----- Keys do not repeat

  lemma {:induction false} InsertKeepsUnique(ms: seq<Member>, m: Member)
    requires UniqueKeys(ms)
    ensures UniqueKeys(Insert(ms, m))
    ensures forall i :: 0 <= i < |Insert(ms, m)| ==> Insert(ms, m)[i] in ms || Insert(ms, m)[i] == m
  {
    if ms != [] {
      assert forall i :: 0 < i < |ms| ==> ms[i] == ms[1..][i - 1] && ms[i].key != ms[0].key;
      assert forall i :: 0 <= i < |ms[1..]| ==> ms[1..][i] == ms[i + 1];
      if ms[0].key != m.key {
        InsertKeepsUnique(ms[1..], m);
        var after := Insert(ms[1..], m);
        assert Insert(ms, m)[1..] == after;
        assert forall i :: 0 < i < |Insert(ms, m)| ==> Insert(ms, m)[i] == after[i - 1];
      }
    }
  }

  lemma {:induction false} DictionaryIsUnique(ms: seq<Member>)
    ensures UniqueKeys(Dictionary(ms))
    ensures forall i :: 0 <= i < |Dictionary(ms)| ==> Dictionary(ms)[i] in ms
  {
    if ms != [] {
      DictionaryIsUnique(ms[..|ms| - 1]);
      InsertKeepsUnique(Dictionary(ms[..|ms| - 1]), ms[|ms| - 1]);
    }
  }

  // ----- The last value counts

  lemma {:induction false} InsertedIsThere(ms: seq<Member>, m: Member)
    ensures m in Insert(ms, m)
    ensures forall x :: x in ms && x.key != m.key ==> x in Insert(ms, m)
  {
    if ms != [] {
      assert ms == [ms[0]] + ms[1..];
      if ms[0].key != m.key {
        InsertedIsThere(ms[1..], m);
      }
    }
  }

  /** The last member with its key is in the dictionary. */
  lemma {:induction false} LastValueCounts(ms: seq<Member>, i: nat)
    requires i < |ms| && forall j :: i < j < |ms| ==> ms[j].key != ms[i].key
    ensures ms[i] in Dictionary(ms)
  {
    var n := |ms| - 1;
    InsertedIsThere(Dictionary(ms[..n]), ms[n]);
    if i < n {
      LastValueCounts(ms[..n], i);
    }
  }

  // ----- Whatever is read is well-formed

  lemma WellFormedDictionary(ms: seq<Member>)
    requires forall i :: 0 <= i < |ms| ==> WellFormed(ms[i].value)
    ensures WellFormed(Obj(Dictionary(ms)))
  {
    DictionaryIsUnique(ms);
  }

  lemma {:induction false} ReadIsWellFormed(s: string)
    requires ParseValue(s).Some?
    ensures WellFormed(ParseValue(s).value.value)
    decreases |s|, 0
  {
    hide ParseItems, ParseMembers, ParseNumber, ParseString, ParseWord, Dictionary;
    if s[0] == '{' {
      var t := SkipSpace(s[1..]);
      if !StartsWith(t, '}') {
        MembersAreWellFormed(t);
        WellFormedDictionary(ParseMembers(t).value.value);
      }
    } else if s[0] == '[' {
      var t := SkipSpace(s[1..]);
      if !StartsWith(t, ']') {
        ItemsAreWellFormed(t);
      }
    } else if s[0] != '"' {
      WordsAreWellFormed(s);
    }
  }

  lemma WordsAreWellFormed(s: string)
    ensures ParseWord(s).Some? ==> WellFormed(ParseWord(s).value.value)
  {
  }

  lemma {:induction false} ItemsAreWellFormed(s: string)
    requires ParseItems(s).Some?
    ensures forall i :: 0 <= i < |ParseItems(s).value.value| ==> WellFormed(ParseItems(s).value.value[i])
    decreases |s|, 1
  {
    hide ParseValue;
    ReadIsWellFormed(s);
    var t := SkipSpace(ParseValue(s).value.rest);
    if !StartsWith(t, ']') {
      ItemsAreWellFormed(SkipSpace(t[1..]));
    }
  }

  lemma {:induction false} MembersAreWellFormed(s: string)
    requires ParseMembers(s).Some?
    ensures forall i :: 0 <= i < |ParseMembers(s).value.value| ==> WellFormed(ParseMembers(s).value.value[i].value)
    decreases |s|, 2
  {
    hide ParseValue, ParseString;
    var k := SkipSpace(ParseString(s[1..]).value.rest);
    ReadIsWellFormed(SkipSpace(k[1..]));
    var t := SkipSpace(ParseMember(s).value.rest);
    if !StartsWith(t, '}') {
      MembersAreWellFormed(SkipSpace(t[1..]));
    }
  }

  lemma LoadedIsWellFormed(s: string)
    requires Loads(s).Some?
    ensures WellFormed(Loads(s).value)
  {
    hide ParseValue;
    ReadIsWellFormed(SkipSpace(s));
  }
}

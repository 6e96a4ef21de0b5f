// The parser's table of month words.
module MonthTable {
  import opened Wrappers
  import opened RegexSteps
  import opened PageTime
  import opened PageTimeSearch

  // Length and first three letters tell the month words apart.
  function Signature(w: string): (int, char, char, char)
    requires |w| >= 3
  {
    (|w|, w[0], w[1], w[2])
  }

  const SIGNATURES: seq<(int, char, char, char)> := [
    (9, 's', 'e', 'p'), (8, 'f', 'e', 'b'), (8, 'n', 'o', 'v'), (8, 'd', 'e', 'c'),
    (7, 'j', 'a', 'n'), (7, 'o', 'c', 't'), (6, 'a', 'u', 'g'), (5, 'm', 'a', 'r'),
    (5, 'a', 'p', 'r'), (4, 'j', 'u', 'n'), (4, 'j', 'u', 'l'), (4, 's', 'e', 'p'),
    (3, 'm', 'a', 'y'), (3, 'j', 'a', 'n'), (3, 'f', 'e', 'b'), (3, 'm', 'a', 'r'),
    (3, 'a', 'p', 'r'), (3, 'j', 'u', 'n'), (3, 'j', 'u', 'l'), (3, 'a', 'u', 'g'),
    (3, 's', 'e', 'p'), (3, 'o', 'c', 't'), (3, 'n', 'o', 'v'), (3, 'd', 'e', 'c')]

  // Small letters, no c before a u, and this signature.
  ghost predicate WordOk(w: string, signature: (int, char, char, char)) {
    |w| >= 3 && Signature(w) == signature && Letters(w) && NoCu(w)
  }

  lemma LongestWords(k: nat)
    requires k < 2
    ensures WordOk(MONTHS[k].0, SIGNATURES[k])
  {
    match k
    case 0 => assert MONTHS[0].0 == "september" && WordOk("september", SIGNATURES[0]);
    case _ => assert MONTHS[1].0 == "february" && WordOk("february", SIGNATURES[1]);
  }

  lemma LongerWords(k: nat)
    requires 2 <= k < 4
    ensures WordOk(MONTHS[k].0, SIGNATURES[k])
  {
    match k
    case 2 => assert MONTHS[2].0 == "november" && WordOk("november", SIGNATURES[2]);
    case _ => assert MONTHS[3].0 == "december" && WordOk("december", SIGNATURES[3]);
  }

  lemma SevenLetters(k: nat)
    requires 4 <= k < 6
    ensures WordOk(MONTHS[k].0, SIGNATURES[k])
  {
    match k
    case 4 => assert MONTHS[4].0 == "january" && WordOk("january", SIGNATURES[4]);
    case _ => assert MONTHS[5].0 == "october" && WordOk("october", SIGNATURES[5]);
  }

  lemma LongWords(k: nat)
    requires 6 <= k < 9
    ensures WordOk(MONTHS[k].0, SIGNATURES[k])
  {
    match k
    case 6 => assert MONTHS[6].0 == "august" && WordOk("august", SIGNATURES[6]);
    case 7 => assert MONTHS[7].0 == "march" && WordOk("march", SIGNATURES[7]);
    case _ => assert MONTHS[8].0 == "april" && WordOk("april", SIGNATURES[8]);
  }

  lemma MiddleWords(k: nat)
    requires 9 <= k < 16
    ensures WordOk(MONTHS[k].0, SIGNATURES[k])
  {
    match k
    case 9 => assert MONTHS[9].0 == "june" && WordOk("june", SIGNATURES[9]);
    case 10 => assert MONTHS[10].0 == "july" && WordOk("july", SIGNATURES[10]);
    case 11 => assert MONTHS[11].0 == "sept" && WordOk("sept", SIGNATURES[11]);
    case 12 => assert MONTHS[12].0 == "may" && WordOk("may", SIGNATURES[12]);
    case 13 => assert MONTHS[13].0 == "jan" && WordOk("jan", SIGNATURES[13]);
    case 14 => assert MONTHS[14].0 == "feb" && WordOk("feb", SIGNATURES[14]);
    case _ => assert MONTHS[15].0 == "mar" && WordOk("mar", SIGNATURES[15]);
  }

  lemma ShortWords(k: nat)
    requires 16 <= k < 24
    ensures WordOk(MONTHS[k].0, SIGNATURES[k])
  {
    match k
    case 16 => assert MONTHS[16].0 == "apr" && WordOk("apr", SIGNATURES[16]);
    case 17 => assert MONTHS[17].0 == "jun" && WordOk("jun", SIGNATURES[17]);
    case 18 => assert MONTHS[18].0 == "jul" && WordOk("jul", SIGNATURES[18]);
    case 19 => assert MONTHS[19].0 == "aug" && WordOk("aug", SIGNATURES[19]);
    case 20 => assert MONTHS[20].0 == "sep" && WordOk("sep", SIGNATURES[20]);
    case 21 => assert MONTHS[21].0 == "oct" && WordOk("oct", SIGNATURES[21]);
    case 22 => assert MONTHS[22].0 == "nov" && WordOk("nov", SIGNATURES[22]);
    case _ => assert MONTHS[23].0 == "dec" && WordOk("dec", SIGNATURES[23]);
  }

  // What each entry's word is like.
  lemma Entry(k: nat)
    requires k < 24
    ensures WordOk(MONTHS[k].0, SIGNATURES[k])
  {
    if k < 2 {
      LongestWords(k);
    } else if k < 4 {
      LongerWords(k);
    } else if k < 6 {
      SevenLetters(k);
    } else if k < 9 {
      LongWords(k);
    } else if k < 16 {
      MiddleWords(k);
    } else {
      ShortWords(k);
    }
  }

  lemma SignaturesDiffer(i: nat, j: nat)
    requires i < j < 24
    ensures SIGNATURES[i] != SIGNATURES[j] && SIGNATURES[i].0 >= SIGNATURES[j].0
  {
  }

  lemma MonthTokensOrdered()
    ensures LongestFirst(MonthTokens())
    ensures forall k :: 0 <= k < |MonthTokens()| ==> Letters(MonthTokens()[k]) && NoCu(MonthTokens()[k])
  {
    forall k | 0 <= k < 24 ensures Letters(MonthTokens()[k]) && NoCu(MonthTokens()[k]) {
      Entry(k);
    }
    forall i, j | 0 <= i < j < 24 ensures |MonthTokens()[i]| >= |MonthTokens()[j]| {
      Entry(i);
      Entry(j);
      SignaturesDiffer(i, j);
    }
  }

  lemma {:induction false} FirstEntryWins(table: seq<(string, int)>, k: nat)
    requires k < |table| && forall i :: 0 <= i < k ==> table[i].0 != table[k].0
    ensures MonthIn(table, table[k].0) == Some(table[k].1)
  {
    if k > 0 {
      assert table[0].0 != table[k].0;
      forall i | 0 <= i < k - 1 ensures table[1..][i].0 != table[1..][k - 1].0 {
        assert table[i + 1].0 != table[k].0;
      }
      FirstEntryWins(table[1..], k - 1);
    }
  }

  lemma TableEntry(k: nat)
    requires k < 24
    ensures MonthIn(MONTHS, MONTHS[k].0) == Some(MONTHS[k].1) && MONTHS[k].0 in MonthTokens()
  {
    forall i | 0 <= i < k ensures MONTHS[i].0 != MONTHS[k].0 {
      Entry(i);
      Entry(k);
      SignaturesDiffer(i, k);
    }
    FirstEntryWins(MONTHS, k);
    assert MonthTokens()[k] == MONTHS[k].0;
  }

  const NAMES: seq<string> := [
    "january", "february", "march", "april", "may", "june", "july", "august", "september", "october", "november",
    "december"]

  function MonthName(m: int): string
    requires 1 <= m <= 12
  {
    NAMES[m - 1]
  }

  // The English words for a month: its name, the name's first three letters, and "sept".
  ghost predicate WordFor(w: string, m: int) {
    && 1 <= m <= 12
    && (w == MonthName(m) || (3 <= |MonthName(m)| && w == MonthName(m)[..3]) || (m == 9 && w == "sept"))
  }

  // Where the table holds each name, and its first three letters.
  const FULL_ENTRIES: seq<nat> := [4, 1, 7, 8, 12, 9, 10, 6, 0, 5, 2, 3]
  const SHORT_ENTRIES: seq<nat> := [13, 14, 15, 16, 12, 17, 18, 19, 20, 21, 22, 23]

  lemma EntriesOfMonth(m: int)
    requires 1 <= m <= 12
    ensures |MonthName(m)| >= 3
    ensures FULL_ENTRIES[m - 1] < 24 && MONTHS[FULL_ENTRIES[m - 1]] == (MonthName(m), m)
    ensures SHORT_ENTRIES[m - 1] < 24 && MONTHS[SHORT_ENTRIES[m - 1]] == (MonthName(m)[..3], m)
  {
    match m
    case 1 => assert NAMES[0] == "january" && "january"[..3] == "jan";
    case 2 => assert NAMES[1] == "february" && "february"[..3] == "feb";
    case 3 => assert NAMES[2] == "march" && "march"[..3] == "mar";
    case 4 => assert NAMES[3] == "april" && "april"[..3] == "apr";
    case 5 => assert NAMES[4] == "may" && "may"[..3] == "may";
    case 6 => assert NAMES[5] == "june" && "june"[..3] == "jun";
    case 7 => assert NAMES[6] == "july" && "july"[..3] == "jul";
    case 8 => assert NAMES[7] == "august" && "august"[..3] == "aug";
    case 9 => assert NAMES[8] == "september" && "september"[..3] == "sep";
    case 10 => assert NAMES[9] == "october" && "october"[..3] == "oct";
    case 11 => assert NAMES[10] == "november" && "november"[..3] == "nov";
    case _ => assert NAMES[11] == "december" && "december"[..3] == "dec";
  }

  // The entry is its month's name, the name's first letters, or "sept".
  lemma EntryIsAWord(k: nat)
    requires k < 24
    ensures WordFor(MONTHS[k].0, MONTHS[k].1)
  {
    var m := MONTHS[k].1;
    assert k == 11 || FULL_ENTRIES[m - 1] == k || SHORT_ENTRIES[m - 1] == k;
    if k == 11 {
      assert MONTHS[11] == ("sept", 9);
    } else {
      EntriesOfMonth(m);
    }
  }

  lemma {:induction false} FoundInTable(table: seq<(string, int)>, w: string)
    ensures MonthIn(table, w).Some? ==> exists k :: 0 <= k < |table| && table[k] == (w, MonthIn(table, w).value)
  {
    if table != [] && table[0].0 != w {
      FoundInTable(table[1..], w);
      if MonthIn(table[1..], w).Some? {
        var k :| 0 <= k < |table| - 1 && table[1..][k] == (w, MonthIn(table[1..], w).value);
        assert table[k + 1] == (w, MonthIn(table, w).value);
      }
    }
  }

  // Where the table holds a word for a month.
  lemma PlaceOfWord(w: string, m: int) returns (k: nat)
    requires WordFor(w, m)
    ensures k < 24 && MONTHS[k].0 == w && MONTHS[k].1 == m
  {
    if m == 9 && w == "sept" {
      k := 11;
    } else {
      EntriesOfMonth(m);
      k := if w == MonthName(m) then FULL_ENTRIES[m - 1] else SHORT_ENTRIES[m - 1];
    }
  }

  lemma WordIsRead(w: string, m: int)
    requires WordFor(w, m)
    ensures MonthIn(MONTHS, w) == Some(m) && w in MonthTokens()
  {
    var k := PlaceOfWord(w, m);
    TableEntry(k);
  }

  lemma ReadIsAWord(w: string)
    requires MonthIn(MONTHS, w).Some?
    ensures WordFor(w, MonthIn(MONTHS, w).value)
  {
    FoundInTable(MONTHS, w);
    var k :| 0 <= k < |MONTHS| && MONTHS[k] == (w, MonthIn(MONTHS, w).value);
    EntryIsAWord(k);
  }

  // The table reads exactly the English words, each as its month.
  lemma MonthWords(w: string, m: int)
    ensures MonthIn(MONTHS, w) == Some(m) <==> WordFor(w, m)
    ensures WordFor(w, m) ==> w in MonthTokens()
  {
    if MonthIn(MONTHS, w).Some? {
      ReadIsAWord(w);
    }
    if WordFor(w, m) {
      WordIsRead(w, m);
    }
  }

  // The month a word names in English, if any.
  ghost function MonthNamed(w: string): Option<int> {
    if m :| WordFor(w, m) then Some(m) else None
  }

  lemma MonthIsNamed(w: string)
    ensures MonthIn(MONTHS, w) == MonthNamed(w)
    ensures w in MonthTokens() <==> MonthNamed(w).Some?
  {
    if MonthIn(MONTHS, w).Some? {
      MonthWords(w, MonthIn(MONTHS, w).value);
    }
    if MonthNamed(w).Some? {
      MonthWords(w, MonthNamed(w).value);
    }
    if w in MonthTokens() {
      var k :| 0 <= k < 24 && MONTHS[k].0 == w;
      TableEntry(k);
    }
  }
}

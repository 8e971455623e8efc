/**
 * Key normalisation of the declarative base table (models.py): the camelCase to
 * snake_case conversion `__convert_key` and the `__tablename__` rule.
 *
 * `__convert_key` is `re.sub(R2, r'\1_\2', re.sub(R1, r'\1_\2', key)).lower()` with
 *   R1 = `(.)([A-Z][a-z]+)`   and   R2 = `([a-z0-9])([A-Z])`.
 * `re.sub` scans left to right and resumes after each match, so each substitution
 * is a recursive scanner over the string. Characters are ASCII; `.` is any
 * character except a newline.
 */
module Keys {

  predicate IsUpper(c: char) { 'A' <= c <= 'Z' }
  predicate IsLower(c: char) { 'a' <= c <= 'z' }
  predicate IsDigit(c: char) { '0' <= c <= '9' }

  /** `str.lower()` on one ASCII character. */
  function LowerChar(c: char): char {
    if IsUpper(c) then (c as int + 32) as char else c
  }

  /** `str.lower()` */
  function Lower(s: string): string {
    seq(|s|, i requires 0 <= i < |s| => LowerChar(s[i]))
  }

  /** No ASCII upper-case letter occurs in `s`. */
  predicate NoUpper(s: string) {
    forall i :: 0 <= i < |s| ==> !IsUpper(s[i])
  }

  /** End of the greedy `[a-z]*` run that starts at `j`. */
  function LowerRunEnd(s: string, j: nat): (k: nat)
    requires j <= |s|
    ensures j <= k <= |s|
    ensures forall i :: j <= i < k ==> IsLower(s[i])
    ensures k == |s| || !IsLower(s[k])
    decreases |s| - j
  {
    if j < |s| && IsLower(s[j]) then LowerRunEnd(s, j + 1) else j
  }

  /** `re.sub(r'(.)([A-Z][a-z]+)', r'\1_\2', s)`: an underscore before every
      capitalised word that has some character (other than a newline) before it. */
  function SplitBeforeWords(s: string): string
    decreases |s|
  {
    if |s| < 3 then s
    else if s[0] != '\n' && IsUpper(s[1]) && IsLower(s[2]) then
      var k := LowerRunEnd(s, 3);
      [s[0], '_'] + s[1..k] + SplitBeforeWords(s[k..])
    else [s[0]] + SplitBeforeWords(s[1..])
  }

  /** `re.sub(r'([a-z0-9])([A-Z])', r'\1_\2', s)`: an underscore between a lower-case
      letter or digit and the upper-case letter after it. */
  function SplitAfterLowers(s: string): string
    decreases |s|
  {
    if |s| < 2 then s
    else if (IsLower(s[0]) || IsDigit(s[0])) && IsUpper(s[1]) then
      [s[0], '_', s[1]] + SplitAfterLowers(s[2..])
    else [s[0]] + SplitAfterLowers(s[1..])
  }

  /** `BaseTableTemplate.__convert_key` */
  function ConvertKey(key: string): string {
    Lower(SplitAfterLowers(SplitBeforeWords(key)))
  }

  /** `__tablename__`: the class name, lower-cased. */
  function TableName(className: string): (r: string)
    ensures |r| == |className| && NoUpper(r)
    ensures forall i :: 0 <= i < |r| ==> r[i] == LowerChar(className[i])
    ensures NoUpper(className) ==> r == className
  {
    Lower(className)
  }

  /** `o` is `s` with zero or more `'_'` characters inserted. */
  predicate UnderscoresInserted(o: string, s: string)
    decreases |o|
  {
    if o == [] then s == []
    else
      || (s != [] && o[0] == s[0] && UnderscoresInserted(o[1..], s[1..]))
      || (o[0] == '_' && UnderscoresInserted(o[1..], s))
  }

  /** `o` is `s` with underscores inserted, none of them in front of `s`'s first character. */
  predicate InsertedAfterFirst(o: string, s: string) {
    if s == [] then o == s
    else o != [] && o[0] == s[0] && UnderscoresInserted(o[1..], s[1..])
  }

  // ---------------------------------------------------------------------------
  // Lower-casing

  lemma LowerOfNoUpper(s: string)
    requires NoUpper(s)
    ensures Lower(s) == s
  {
  }

  lemma LowerIsLowercase(s: string)
    ensures |Lower(s)| == |s| && NoUpper(Lower(s))
  {
  }

  // ---------------------------------------------------------------------------
  // A key without upper-case letters is left alone

  lemma {:induction false} SplitBeforeWordsNoUpper(s: string)
    requires NoUpper(s)
    ensures SplitBeforeWords(s) == s
    decreases |s|
  {
    if |s| >= 3 {
      assert !IsUpper(s[1]);
      SplitBeforeWordsNoUpper(s[1..]);
      assert [s[0]] + s[1..] == s;
    }
  }

  lemma {:induction false} SplitAfterLowersNoUpper(s: string)
    requires NoUpper(s)
    ensures SplitAfterLowers(s) == s
    decreases |s|
  {
    if |s| >= 2 {
      assert !IsUpper(s[1]);
      SplitAfterLowersNoUpper(s[1..]);
      assert [s[0]] + s[1..] == s;
    }
  }

  /** Both patterns need an upper-case letter, so a key without one is returned as is. */
  lemma ConvertKeyFixesLowercase(key: string)
    requires NoUpper(key)
    ensures ConvertKey(key) == key
  {
    SplitBeforeWordsNoUpper(key);
    SplitAfterLowersNoUpper(key);
    LowerOfNoUpper(key);
  }

  /** The final `.lower()` leaves no upper-case letter. */
  lemma ConvertKeyIsLowercase(key: string)
    ensures NoUpper(ConvertKey(key))
  {
    LowerIsLowercase(SplitAfterLowers(SplitBeforeWords(key)));
  }

  /** Converting an already converted key changes nothing. */
  lemma ConvertKeyIdempotent(key: string)
    ensures ConvertKey(ConvertKey(key)) == ConvertKey(key)
  {
    ConvertKeyIsLowercase(key);
    ConvertKeyFixesLowercase(ConvertKey(key));
  }

  // ---------------------------------------------------------------------------
  // The conversion only inserts underscores

  lemma {:induction false} InsertedReflexive(s: string)
    ensures UnderscoresInserted(s, s)
    decreases |s|
  {
    if s != [] {
      InsertedReflexive(s[1..]);
    }
  }

  lemma {:induction false} InsertedAppend(a: string, b: string, c: string, d: string)
    requires UnderscoresInserted(a, b) && UnderscoresInserted(c, d)
    ensures UnderscoresInserted(a + c, b + d)
    decreases |a|
  {
    if a == [] {
      assert a + c == c && b + d == d;
    } else {
      assert (a + c)[0] == a[0] && (a + c)[1..] == a[1..] + c;
      if b != [] && a[0] == b[0] && UnderscoresInserted(a[1..], b[1..]) {
        InsertedAppend(a[1..], b[1..], c, d);
        assert (b + d)[0] == b[0] && (b + d)[1..] == b[1..] + d;
      } else {
        InsertedAppend(a[1..], b, c, d);
      }
    }
  }

  lemma {:induction false} InsertedTransitive(a: string, b: string, c: string)
    requires UnderscoresInserted(a, b) && UnderscoresInserted(b, c)
    ensures UnderscoresInserted(a, c)
    decreases |a|
  {
    if a != [] {
      if b != [] && a[0] == b[0] && UnderscoresInserted(a[1..], b[1..]) {
        if c != [] && b[0] == c[0] && UnderscoresInserted(b[1..], c[1..]) {
          InsertedTransitive(a[1..], b[1..], c[1..]);
        } else {
          InsertedTransitive(a[1..], b[1..], c);
        }
      } else {
        InsertedTransitive(a[1..], b, c);
      }
    }
  }

  lemma {:induction false} InsertedLower(o: string, s: string)
    requires UnderscoresInserted(o, s)
    ensures UnderscoresInserted(Lower(o), Lower(s))
    decreases |o|
  {
    if o != [] {
      assert Lower(o)[1..] == Lower(o[1..]);
      if s != [] && o[0] == s[0] && UnderscoresInserted(o[1..], s[1..]) {
        InsertedLower(o[1..], s[1..]);
        assert Lower(s)[1..] == Lower(s[1..]);
      } else {
        InsertedLower(o[1..], s);
      }
    }
  }

  lemma {:induction false} InsertedLength(o: string, s: string)
    requires UnderscoresInserted(o, s)
    ensures |o| >= |s|
    decreases |o|
  {
    if o != [] {
      if s != [] && o[0] == s[0] && UnderscoresInserted(o[1..], s[1..]) {
        InsertedLength(o[1..], s[1..]);
      } else {
        InsertedLength(o[1..], s);
      }
    }
  }

  lemma {:induction false} SplitBeforeWordsInserts(s: string)
    ensures InsertedAfterFirst(SplitBeforeWords(s), s)
    decreases |s|
  {
    if |s| < 3 {
      InsertedReflexive(s);
      if s != [] { InsertedReflexive(s[1..]); }
    } else if s[0] != '\n' && IsUpper(s[1]) && IsLower(s[2]) {
      var k := LowerRunEnd(s, 3);
      SplitBeforeWordsInserts(s[k..]);
      assert UnderscoresInserted(SplitBeforeWords(s[k..]), s[k..]) by {
        var t := s[k..];
        if t != [] {
          var o := SplitBeforeWords(t);
          assert o[0] == t[0] && UnderscoresInserted(o[1..], t[1..]);
        }
      }
      InsertedReflexive(s[1..k]);
      InsertedAppend(s[1..k], s[1..k], SplitBeforeWords(s[k..]), s[k..]);
      assert s[1..k] + s[k..] == s[1..];
      var o := [s[0], '_'] + s[1..k] + SplitBeforeWords(s[k..]);
      assert o[1..] == ['_'] + (s[1..k] + SplitBeforeWords(s[k..]));
    } else {
      SplitBeforeWordsInserts(s[1..]);
      var t := s[1..];
      var o := SplitBeforeWords(t);
      assert UnderscoresInserted(o, t) by {
        if t != [] {
          assert o[0] == t[0] && UnderscoresInserted(o[1..], t[1..]);
        }
      }
      assert ([s[0]] + o)[1..] == o;
    }
  }

  lemma {:induction false} SplitAfterLowersInserts(s: string)
    ensures InsertedAfterFirst(SplitAfterLowers(s), s)
    decreases |s|
  {
    if |s| < 2 {
      InsertedReflexive(s);
      if s != [] { InsertedReflexive(s[1..]); }
    } else {
      var n := if (IsLower(s[0]) || IsDigit(s[0])) && IsUpper(s[1]) then 2 else 1;
      SplitAfterLowersInserts(s[n..]);
      var t := s[n..];
      var o := SplitAfterLowers(t);
      assert UnderscoresInserted(o, t) by {
        if t != [] {
          assert o[0] == t[0] && UnderscoresInserted(o[1..], t[1..]);
        }
      }
      if n == 2 {
        var r := [s[0], '_', s[1]] + o;
        assert r[1..] == ['_'] + ([s[1]] + o);
        assert (['_'] + ([s[1]] + o))[1..] == [s[1]] + o;
        assert ([s[1]] + o)[1..] == o;
        assert s[1..][1..] == t;
      } else {
        assert ([s[0]] + o)[1..] == o;
      }
    }
  }

  lemma InsertedAfterFirstIsInserted(o: string, s: string)
    requires InsertedAfterFirst(o, s)
    ensures UnderscoresInserted(o, s)
  {
    if s == [] { InsertedReflexive(s); }
  }

  lemma {:induction false} InsertedAfterFirstTransitive(a: string, b: string, c: string)
    requires InsertedAfterFirst(a, b) && InsertedAfterFirst(b, c)
    ensures InsertedAfterFirst(a, c)
  {
    if c != [] {
      InsertedTransitive(a[1..], b[1..], c[1..]);
    }
  }

  /** Deleting the underscores `__convert_key` inserts gives back the lower-cased key; none is
      inserted in front of the key's first character, so the result is never shorter. */
  lemma ConvertKeyOnlyInsertsUnderscores(key: string)
    ensures InsertedAfterFirst(ConvertKey(key), Lower(key))
    ensures |ConvertKey(key)| >= |key|
  {
    var mid := SplitBeforeWords(key);
    var out := SplitAfterLowers(mid);
    SplitBeforeWordsInserts(key);
    SplitAfterLowersInserts(mid);
    InsertedAfterFirstTransitive(out, mid, key);
    InsertedAfterFirstIsInserted(out, key);
    InsertedLower(out, key);
    InsertedLength(Lower(out), Lower(key));
    if key != [] {
      InsertedLower(out[1..], key[1..]);
      assert Lower(out)[1..] == Lower(out[1..]);
      assert Lower(key)[1..] == Lower(key[1..]);
    }
  }

  /** A prefix whose characters after the first are not upper-case, and that is not
      followed by an upper-case letter, is copied unchanged by the first pass. */
  lemma {:induction false} SplitBeforeWordsCopiesPrefix(p: string, t: string)
    requires p == [] || NoUpper(p[1..])
    requires p != [] && t != [] ==> !IsUpper(t[0])
    ensures SplitBeforeWords(p + t) == p + SplitBeforeWords(t)
    decreases |p|
  {
    if p == [] {
      assert p + t == t && p + SplitBeforeWords(t) == SplitBeforeWords(t);
    } else {
      var s := p + t;
      var rest := p[1..] + t;
      assert s[1..] == rest;
      assert p == [p[0]] + p[1..];
      if |s| < 3 {
        assert SplitBeforeWords(t) == t && SplitBeforeWords(s) == s;
      } else {
        assert !IsUpper(s[1]) by {
          if |p| >= 2 { assert s[1] == p[1..][0]; } else { assert s[1] == t[0]; }
        }
        calc {
          SplitBeforeWords(s);
          [s[0]] + SplitBeforeWords(rest);
          { if |p| >= 2 {
              assert p[1..][1..] == p[2..];
              SplitBeforeWordsCopiesPrefix(p[1..], t);
            } else {
              assert rest == t;
            } }
          [p[0]] + (p[1..] + SplitBeforeWords(t));
          p + SplitBeforeWords(t);
        }
      }
    }
  }

  /** The second pass changes nothing when no lower-case letter or digit is followed by an upper-case letter. */
  lemma {:induction false} SplitAfterLowersWithoutPairs(s: string)
    requires forall i :: 0 <= i < |s| - 1 ==> !((IsLower(s[i]) || IsDigit(s[i])) && IsUpper(s[i + 1]))
    ensures SplitAfterLowers(s) == s
    decreases |s|
  {
    if |s| >= 2 {
      forall i | 0 <= i < |s[1..]| - 1
        ensures !((IsLower(s[1..][i]) || IsDigit(s[1..][i])) && IsUpper(s[1..][i + 1]))
      {
        assert s[1..][i] == s[i + 1] && s[1..][i + 1] == s[i + 2];
      }
      SplitAfterLowersWithoutPairs(s[1..]);
      assert [s[0]] + s[1..] == s;
    }
  }

  lemma SplitBeforeWordsSkips(s: string)
    requires |s| >= 3 && !IsLower(s[2])
    ensures SplitBeforeWords(s) == [s[0]] + SplitBeforeWords(s[1..])
  {
  }

  lemma CreatedAtFirstPass(key: string)
    requires key == "CreatedAt" || key == "createdAt"
    ensures SplitBeforeWords(key) == key[..6] + "d_At"
  {
    var head := key[..6];
    var tail := "dAt";
    assert SplitBeforeWords(tail) == "d_At" by {
      assert tail[0] == 'd' && tail[1] == 'A' && tail[2] == 't';
      assert LowerRunEnd(tail, 3) == 3;
      assert tail[1..3] == "At" && tail[3..] == [];
      assert ['d', '_'] + "At" + [] == "d_At";
    }
    assert head[1..] == "reate";
    assert NoUpper(head[1..]);
    assert head + tail == key;
    SplitBeforeWordsCopiesPrefix(head, tail);
  }

  lemma CreatedAtRest(mid: string)
    requires mid == "Created_At" || mid == "created_At"
    ensures Lower(SplitAfterLowers(mid)) == "created_at"
  {
    SplitAfterLowersWithoutPairs(mid);
  }

  /** Both spellings of the documented `created_at` attribute convert to it. */
  lemma ConvertKeyCreatedAt(key: string)
    requires key == "CreatedAt" || key == "createdAt"
    ensures ConvertKey(key) == "created_at"
  {
    CreatedAtFirstPass(key);
    var mid := key[..6] + "d_At";
    assert mid == "Created_At" || mid == "created_At";
    CreatedAtRest(mid);
  }

  lemma AcronymFirstPass(key: string)
    requires key == "HTTPResponse"
    ensures SplitBeforeWords(key) == "HTTP_Response"
  {
    assert LowerRunEnd("PResponse", 3) == 9;
    assert SplitBeforeWords("PResponse") == "P_Response";
    SplitBeforeWordsSkips(key);
    assert key[1..] == "TTPResponse";
    SplitBeforeWordsSkips(key[1..]);
    assert key[2..] == "TPResponse" == key[1..][1..];
    SplitBeforeWordsSkips(key[2..]);
    assert key[3..] == "PResponse" == key[2..][1..];
  }

  lemma AcronymRest(mid: string)
    requires mid == "HTTP_Response"
    ensures Lower(SplitAfterLowers(mid)) == "http_response"
  {
    SplitAfterLowersWithoutPairs(mid);
  }

  /** A run of capitals keeps its last capital with the word that follows it. */
  lemma ConvertKeyAcronym(key: string)
    requires key == "HTTPResponse"
    ensures ConvertKey(key) == "http_response"
  {
    AcronymFirstPass(key);
    AcronymRest(SplitBeforeWords(key));
  }

  /** The ledger table's name, which models.py:117 refers to as `fileledger.id`. */
  lemma FileLedgerTableName()
    ensures TableName("FileLedger") == "fileledger"
  {
  }
}

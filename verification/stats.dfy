/** `ErrorCheckImportStats`: the run-wide accumulator of imported-record
    count, every error code handed to duplicate detection, and the files
    that failed. */
module ImportStats {
  import opened Strings

  datatype Stats = Stats(totalRecords: int, allErrorCodes: seq<string>, failedFiles: seq<string>)

  /** The state a fresh `ErrorCheckImportStats()` starts in. */
  const Fresh: Stats := Stats(0, [], [])

  /** The codes of `codes`, in input order and with multiplicity, that
      already occur in `prior`: the loop of `add_error_codes`. */
  function DuplicatesAgainst(prior: seq<string>, codes: seq<string>): seq<string>
    decreases |codes|
  {
    if codes == [] then []
    else (if codes[0] in prior then [codes[0]] else []) + DuplicatesAgainst(prior, codes[1..])
  }

  /** Each code is reported as often as it occurs in `codes` when it was
      already in `prior`, and never otherwise. */
  lemma {:induction false} DuplicatesAgainstCounts(prior: seq<string>, codes: seq<string>)
    ensures forall c :: multiset(DuplicatesAgainst(prior, codes))[c] ==
                        (if c in prior then multiset(codes)[c] else 0)
    decreases |codes|
  {
    if codes != [] {
      DuplicatesAgainstCounts(prior, codes[1..]);
      assert codes == [codes[0]] + codes[1..];
    }
  }

  /** Nothing is reported exactly when no input code was already in
      `prior`. */
  lemma {:induction false} DuplicatesAgainstEmpty(prior: seq<string>, codes: seq<string>)
    ensures DuplicatesAgainst(prior, codes) == [] <==>
            forall i :: 0 <= i < |codes| ==> codes[i] !in prior
    decreases |codes|
  {
    if codes != [] {
      DuplicatesAgainstEmpty(prior, codes[1..]);
      if codes[0] !in prior && DuplicatesAgainst(prior, codes) == [] {
        forall i | 0 <= i < |codes|
          ensures codes[i] !in prior
        {
          if i > 0 {
            assert codes[i] == codes[1..][i - 1];
          }
        }
      }
    }
  }

  /** Duplicate detection respects input order: the duplicates of a
      concatenation are those of each part, in turn. */
  lemma {:induction false} DuplicatesAgainstAppend(prior: seq<string>, a: seq<string>, b: seq<string>)
    ensures DuplicatesAgainst(prior, a + b) == DuplicatesAgainst(prior, a) + DuplicatesAgainst(prior, b)
    decreases |a|
  {
    if a != [] {
      var head := if a[0] in prior then [a[0]] else [];
      assert (a + b)[0] == a[0];
      assert (a + b)[1..] == a[1..] + b;
      calc {
        DuplicatesAgainst(prior, a + b);
        head + DuplicatesAgainst(prior, a[1..] + b);
        { DuplicatesAgainstAppend(prior, a[1..], b); }
        head + (DuplicatesAgainst(prior, a[1..]) + DuplicatesAgainst(prior, b));
        (head + DuplicatesAgainst(prior, a[1..])) + DuplicatesAgainst(prior, b);
        DuplicatesAgainst(prior, a) + DuplicatesAgainst(prior, b);
      }
    } else {
      assert a + b == b;
    }
  }

  datatype AddResult = AddResult(stats: Stats, duplicates: seq<string>)

  /** `add_error_codes`: reports the input codes that were already recorded
      BEFORE the call, then records every input code, duplicates included.
      A code repeated only within `codes` is therefore not reported. */
  function AddErrorCodes(s: Stats, codes: seq<string>): (r: AddResult)
    ensures r.stats.allErrorCodes == s.allErrorCodes + codes
    ensures |r.stats.allErrorCodes| == |s.allErrorCodes| + |codes|
    ensures r.stats.totalRecords == s.totalRecords && r.stats.failedFiles == s.failedFiles
    ensures forall c {:trigger multiset(r.duplicates)[c]} :: multiset(r.duplicates)[c] ==
                        (if c in s.allErrorCodes then multiset(codes)[c] else 0)
    ensures r.duplicates == [] <==> forall i :: 0 <= i < |codes| ==> codes[i] !in s.allErrorCodes
  {
    var dups := DuplicatesAgainst(s.allErrorCodes, codes);
    DuplicatesAgainstCounts(s.allErrorCodes, codes);
    DuplicatesAgainstEmpty(s.allErrorCodes, codes);
    AddResult(s.(allErrorCodes := s.allErrorCodes + codes), dups)
  }

  /** Two calls record the same codes as one call on the concatenation, but
      the second call also reports the codes the first one recorded: one
      call misses collisions between its own entries, two calls catch them. */
  lemma {:induction false} AddErrorCodesTwice(s: Stats, a: seq<string>, b: seq<string>)
    ensures var first := AddErrorCodes(s, a);
      var second := AddErrorCodes(first.stats, b);
      var combined := AddErrorCodes(s, a + b);
      && second.stats == combined.stats
      && combined.duplicates == first.duplicates + DuplicatesAgainst(s.allErrorCodes, b)
      && second.duplicates == DuplicatesAgainst(s.allErrorCodes + a, b)
  {
    var first := AddErrorCodes(s, a);
    var second := AddErrorCodes(first.stats, b);
    var combined := AddErrorCodes(s, a + b);
    assert first.stats.allErrorCodes == s.allErrorCodes + a;
    assert second.duplicates == DuplicatesAgainst(s.allErrorCodes + a, b);
    assert combined.duplicates == DuplicatesAgainst(s.allErrorCodes, a + b);
    DuplicatesAgainstAppend(s.allErrorCodes, a, b);
    ConcatRegroup(s.allErrorCodes, a, b);
  }

  /** A code given twice in one call to fresh stats is not reported; given in
      two calls, it is reported by the second. */
  lemma {:induction false} RepeatWithinOneCallNotReported(code: string)
    ensures AddErrorCodes(Fresh, [code, code]).duplicates == []
    ensures AddErrorCodes(AddErrorCodes(Fresh, [code]).stats, [code]).duplicates == [code]
  {
    assert [code][1..] == [];
    assert AddErrorCodes(Fresh, [code]).stats.allErrorCodes == [code];
    assert DuplicatesAgainst([code], [code]) == [code] + DuplicatesAgainst([code], []);
  }

  /** `add_to_total_records`: adds `n` to the total and changes nothing else. */
  function AddToTotalRecords(s: Stats, n: int): (r: Stats)
    ensures r.totalRecords - s.totalRecords == n
    ensures r.allErrorCodes == s.allErrorCodes && r.failedFiles == s.failedFiles
  {
    s.(totalRecords := s.totalRecords + n)
  }

  /** `add_failed_file`: appends one file and changes nothing else. */
  function AddFailedFile(s: Stats, file: string): (r: Stats)
    ensures |r.failedFiles| == |s.failedFiles| + 1
    ensures r.failedFiles[..|s.failedFiles|] == s.failedFiles && r.failedFiles[|s.failedFiles|] == file
    ensures r.totalRecords == s.totalRecords && r.allErrorCodes == s.allErrorCodes
  {
    s.(failedFiles := s.failedFiles + [file])
  }
}

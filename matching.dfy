/**
 * The library match filter shared by the four scripts: Python's `ocr_text in text`
 * on `str`, and the two ways a scan over the library treats an entry whose
 * opening or recognition raises (skip it and go on, or abort the whole scan).
 */
module Matching {
  import opened Wrappers

  /** Python's `sub in s` for strings: case- and whitespace-sensitive, and the empty string is in every string. */
  function Contains(s: string, sub: string): (r: bool)
    ensures sub == [] ==> r
    ensures r ==> |sub| <= |s|
    decreases |s|
  {
    if sub <= s then true
    else if s == [] then false
    else Contains(s[1..], sub)
  }

  /** Independent reading of containment: `sub` occurs in `s` starting at index `i`. */
  ghost predicate OccursAt(s: string, sub: string, i: int)
  {
    0 <= i && i + |sub| <= |s| && s[i..i + |sub|] == sub
  }

  /** `Contains` holds exactly when `sub` occurs at some index of `s`. */
  lemma {:induction false} ContainsIff(s: string, sub: string)
    ensures Contains(s, sub) <==> exists i :: OccursAt(s, sub, i)
    decreases |s|
  {
    if sub <= s {
      assert s[0..|sub|] == sub;
      assert OccursAt(s, sub, 0);
    } else if s == [] {
      assert |sub| > 0;
      assert forall i :: !OccursAt(s, sub, i);
    } else {
      ContainsIff(s[1..], sub);
      forall j | OccursAt(s[1..], sub, j) ensures OccursAt(s, sub, j + 1) {
        assert s[1..][j..j + |sub|] == s[j + 1..j + 1 + |sub|];
      }
      assert !OccursAt(s, sub, 0);
      forall i | OccursAt(s, sub, i) ensures OccursAt(s[1..], sub, i - 1) {
        assert s[1..][i - 1..i - 1 + |sub|] == s[i..i + |sub|];
      }
    }
  }

  /** Text found inside a string is still found once anything is put in front of it. */
  lemma {:induction false} ContainsAfterPrefix(p: string, t: string, sub: string)
    requires Contains(t, sub)
    ensures Contains(p + t, sub)
    decreases |p|
  {
    if p == [] {
      assert p + t == t;
    } else if !(sub <= p + t) {
      assert (p + t)[1..] == p[1..] + t;
      ContainsAfterPrefix(p[1..], t, sub);
    }
  }

  /** A library entry is reported when its OCR text is readable and contains the frame text. */
  predicate Selected<E>(text: string, e: E, ocr: E -> Option<string>)
  {
    ocr(e).Some? && Contains(ocr(e).value, text)
  }

  /** Every entry could be opened and recognised. */
  predicate AllReadable<E>(entries: seq<E>, ocr: E -> Option<string>)
  {
    forall i | 0 <= i < |entries| :: ocr(entries[i]).Some?
  }

  /**
   * The scan that isolates per-entry failures: entries whose OCR raises are
   * skipped, the others are kept, in library order, when they contain `text`.
   */
  function SkipScan<E>(text: string, entries: seq<E>, ocr: E -> Option<string>): (r: seq<E>)
    ensures |r| <= |entries|
    ensures forall k | 0 <= k < |r| :: Selected(text, r[k], ocr)
  {
    if entries == [] then []
    else (if Selected(text, entries[0], ocr) then [entries[0]] else []) + SkipScan(text, entries[1..], ocr)
  }

  /**
   * The scan without isolation: entries are read in order and the first
   * failing one aborts the scan, with no partial result. It has a result
   * exactly when every entry is readable, and then agrees with the skipping scan.
   */
  function AbortScan<E>(text: string, entries: seq<E>, ocr: E -> Option<string>): (r: Option<seq<E>>)
    ensures r.Some? <==> AllReadable(entries, ocr)
    ensures r.Some? ==> r.value == SkipScan(text, entries, ocr)
  {
    if entries == [] then Some([])
    else
      assert forall k | 0 <= k < |entries| - 1 :: entries[1..][k] == entries[k + 1];
      match ocr(entries[0])
      case None => None
      case Some(found) =>
        match AbortScan(text, entries[1..], ocr)
        case None => None
        case Some(rest) => Some((if Contains(found, text) then [entries[0]] else []) + rest)
  }

  /** `a` is obtained from `b` by deleting elements, keeping the order of the rest. */
  ghost predicate IsSubseq<E>(a: seq<E>, b: seq<E>)
    decreases |b|
  {
    a == [] || (b != [] && ((a[0] == b[0] && IsSubseq(a[1..], b[1..])) || IsSubseq(a, b[1..])))
  }

  /** Scanning a concatenation is scanning each part: an entry never affects what is found in later ones. */
  lemma {:induction false} SkipScanAppend<E>(text: string, a: seq<E>, b: seq<E>, ocr: E -> Option<string>)
    ensures SkipScan(text, a + b, ocr) == SkipScan(text, a, ocr) + SkipScan(text, b, ocr)
    decreases |a|
  {
    if a != [] {
      assert (a + b)[0] == a[0];
      assert (a + b)[1..] == a[1..] + b;
      SkipScanAppend(text, a[1..], b, ocr);
    } else {
      assert a + b == b;
    }
  }

  /** An unreadable entry is left out, and every entry after it is still scanned. */
  lemma UnreadableSkipped<E>(text: string, a: seq<E>, bad: E, b: seq<E>, ocr: E -> Option<string>)
    requires ocr(bad).None?
    ensures SkipScan(text, a + [bad] + b, ocr) == SkipScan(text, a, ocr) + SkipScan(text, b, ocr)
  {
    SkipScanAppend(text, a + [bad], b, ocr);
    SkipScanAppend(text, a, [bad], ocr);
    assert SkipScan(text, [bad], ocr) == [] by {
      assert [bad][1..] == [];
    }
  }

  /**
   * One unreadable entry between `a` and `b`: the aborting scan loses the
   * matches in `a` and `b` alike, while the skipping scan keeps both.
   */
  lemma ScansOnUnreadable<E>(text: string, a: seq<E>, bad: E, b: seq<E>, ocr: E -> Option<string>)
    requires ocr(bad).None?
    ensures AbortScan(text, a + [bad] + b, ocr) == None
    ensures SkipScan(text, a + [bad] + b, ocr) == SkipScan(text, a, ocr) + SkipScan(text, b, ocr)
  {
    assert (a + [bad] + b)[|a|] == bad;
    UnreadableSkipped(text, a, bad, b, ocr);
  }

  /** The result of the scan is a subsequence of the library: library order is kept. */
  lemma {:induction false} SkipScanIsSubseq<E>(text: string, entries: seq<E>, ocr: E -> Option<string>)
    ensures IsSubseq(SkipScan(text, entries, ocr), entries)
    decreases |entries|
  {
    if entries != [] {
      var rest := SkipScan(text, entries[1..], ocr);
      SkipScanIsSubseq(text, entries[1..], ocr);
      if Selected(text, entries[0], ocr) {
        assert ([entries[0]] + rest)[1..] == rest;
      } else {
        assert SkipScan(text, entries, ocr) == rest;
        if rest != [] {
          assert IsSubseq(rest, entries);
        }
      }
    }
  }

  /** Each selected entry occurs in the result as often as in the library; no other entry occurs. */
  lemma {:induction false} SkipScanCount<E>(text: string, entries: seq<E>, ocr: E -> Option<string>)
    ensures forall x :: multiset(SkipScan(text, entries, ocr))[x]
                        == if Selected(text, x, ocr) then multiset(entries)[x] else 0
    decreases |entries|
  {
    if entries != [] {
      SkipScanCount(text, entries[1..], ocr);
      assert entries == [entries[0]] + entries[1..];
      assert multiset(entries) == multiset([entries[0]]) + multiset(entries[1..]);
    }
  }

  /** The scan returns exactly the readable entries whose text contains `text`. */
  lemma SkipScanMembers<E>(text: string, entries: seq<E>, ocr: E -> Option<string>, x: E)
    ensures x in SkipScan(text, entries, ocr) <==> x in entries && Selected(text, x, ocr)
  {
    SkipScanCount(text, entries, ocr);
    assert x in SkipScan(text, entries, ocr) <==> multiset(SkipScan(text, entries, ocr))[x] > 0;
    assert x in entries <==> multiset(entries)[x] > 0;
  }

  lemma {:induction false} SubseqCount<E>(a: seq<E>, b: seq<E>, x: E)
    requires IsSubseq(a, b)
    ensures multiset(a)[x] <= multiset(b)[x]
    decreases |b|
  {
    if a != [] {
      assert b == [b[0]] + b[1..];
      if a[0] == b[0] && IsSubseq(a[1..], b[1..]) {
        assert a == [a[0]] + a[1..];
        SubseqCount(a[1..], b[1..], x);
      } else {
        SubseqCount(a, b[1..], x);
      }
    }
  }

  /**
   * Subsequence plus the selection counts pin the result down: any list with
   * both properties is the scan's result, so the two properties specify it completely.
   */
  lemma {:induction false} SkipScanUnique<E>(text: string, entries: seq<E>, ocr: E -> Option<string>, r: seq<E>)
    requires IsSubseq(r, entries)
    requires forall x :: multiset(r)[x] == if Selected(text, x, ocr) then multiset(entries)[x] else 0
    ensures r == SkipScan(text, entries, ocr)
    decreases |entries|
  {
    if entries == [] {
      assert r == [];
    } else {
      var e := entries[0];
      var tail := entries[1..];
      assert entries == [e] + tail;
      assert multiset(entries)[e] == multiset(tail)[e] + 1;
      if Selected(text, e, ocr) {
        assert r != [] by {
          assert multiset(r)[e] > 0;
        }
        if !(r[0] == e && IsSubseq(r[1..], tail)) {
          assert IsSubseq(r, tail);
          SubseqCount(r, tail, e);
          assert false;
        }
        assert r == [r[0]] + r[1..];
        forall x ensures multiset(r[1..])[x] == if Selected(text, x, ocr) then multiset(tail)[x] else 0 {
          assert multiset(r) == multiset([e]) + multiset(r[1..]);
        }
        SkipScanUnique(text, tail, ocr, r[1..]);
      } else {
        if r != [] {
          assert multiset(r)[r[0]] > 0;
          assert r[0] != e;
          assert IsSubseq(r, tail);
        }
        SkipScanUnique(text, tail, ocr, r);
      }
    }
  }

  /** Every entry that can be read matches an empty frame text; with no failures the whole library is returned. */
  lemma {:induction false} EmptyTextMatchesReadable<E>(entries: seq<E>, ocr: E -> Option<string>)
    ensures forall i | 0 <= i < |entries| && ocr(entries[i]).Some? :: entries[i] in SkipScan([], entries, ocr)
    ensures AllReadable(entries, ocr) ==> SkipScan([], entries, ocr) == entries
    decreases |entries|
  {
    if entries != [] {
      EmptyTextMatchesReadable(entries[1..], ocr);
      assert forall i | 1 <= i < |entries| :: entries[i] == entries[1..][i - 1];
      if AllReadable(entries, ocr) {
        assert AllReadable(entries[1..], ocr) by {
          forall i | 0 <= i < |entries[1..]| ensures ocr(entries[1..][i]).Some? {
            assert entries[1..][i] == entries[i + 1];
          }
        }
        assert ocr(entries[0]).Some?;
        assert entries == [entries[0]] + entries[1..];
      }
    }
  }

  /** Text that uses a character the string lacks is not contained in it. */
  lemma MissingCharNotContained(s: string, sub: string, j: int)
    requires 0 <= j < |sub| && sub[j] !in s
    ensures !Contains(s, sub)
  {
    ContainsIff(s, sub);
    forall i | 0 <= i && i + |sub| <= |s| ensures !OccursAt(s, sub, i) {
      assert s[i..i + |sub|][j] == s[i + j];
      assert s[i + j] in s;
    }
  }

  /** A frame text is found inside a longer receipt text and not inside another. */
  lemma ReceiptExample()
    ensures Contains("INVOICE #123 TOTAL $50", "TOTAL $50")
    ensures !Contains("RECEIPT STORE A", "TOTAL $50")
  {
    var total: string := "TOTAL $50";
    assert Contains(total, total);
    ContainsAfterPrefix("INVOICE #123 ", total, total);
    assert "INVOICE #123 " + total == "INVOICE #123 TOTAL $50";
    MissingCharNotContained("RECEIPT STORE A", total, 6);
  }

  /** Containment distinguishes letter case. */
  lemma CaseSensitiveExample()
    ensures !Contains("TOTAL $50", "total $50")
  {
    MissingCharNotContained("TOTAL $50", "total $50", 0);
  }
}

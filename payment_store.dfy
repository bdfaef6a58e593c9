/**
 * The transaction store: one in-memory slot for the latest transaction,
 * mirrored into the browser's session storage so that it survives a page
 * reload, plus the two helpers that build what the store holds (the masked
 * card number and the transaction identifier).
 */
module PaymentStore {
  import opened Wrappers
  import opened JsString
  import opened JsNumber
  import opened PaymentTypes

  // ---------------------------------------------------------------------
  // maskCardNumber

  const MaskPrefix := "**** **** **** "

  /** Whitespace removed, then everything but the last four characters hidden. */
  function MaskCardNumber(cardNumber: string): (r: string)
    ensures |MaskPrefix| <= |r| <= |MaskPrefix| + 4
    ensures r[..|MaskPrefix|] == MaskPrefix
    ensures forall i :: |MaskPrefix| <= i < |r| ==> IsNonWhitespace(r[i])
  {
    MaskPrefix + Slice(Filter(IsNonWhitespace, cardNumber), 0 - 4)
  }

  /**
   * What follows the mask is exactly the last four non-whitespace characters
   * of the input, or all of them when there are fewer than four.
   */
  lemma MaskKeepsLastFour(cardNumber: string)
    ensures var c := Filter(IsNonWhitespace, cardNumber);
      |MaskCardNumber(cardNumber)| == |MaskPrefix| + Min(4, |c|) &&
      MaskCardNumber(cardNumber) == MaskPrefix + c[|c| - Min(4, |c|)..]
  {
    var c := Filter(IsNonWhitespace, cardNumber);
    SliceFromEnd(c, 4);
  }

  /**
   * Once the input holds four non-whitespace characters, nothing written
   * before them can show through the mask.
   */
  lemma MaskIgnoresEarlierCharacters(earlier: string, s: string)
    requires |Filter(IsNonWhitespace, s)| >= 4
    ensures MaskCardNumber(earlier + s) == MaskCardNumber(s)
  {
    var a, b := Filter(IsNonWhitespace, earlier), Filter(IsNonWhitespace, s);
    FilterAppend(IsNonWhitespace, earlier, s);
    SuffixOfAppend(a, b, 4);
  }

  /** The last `k` characters of `a + b` are those of `b` when `b` has `k` of them. */
  lemma SuffixOfAppend(a: string, b: string, k: nat)
    requires 0 < k <= |b|
    ensures Slice(a + b, 0 - k) == Slice(b, 0 - k)
  {
    assert (a + b)[|a + b| - k..] == b[|b| - k..];
  }

  /** A group of four digits is shown unchanged after the mask. */
  lemma MaskOfLastGroup()
    ensures MaskCardNumber("1111") == "**** **** **** 1111"
  {
    var tail := "1111";
    assert forall i :: 0 <= i < |tail| ==> IsNonWhitespace(tail[i]);
    FilterFixedPoint(IsNonWhitespace, tail);
  }

  /** A grouped sixteen-digit number shows only its last group. */
  lemma MaskExample()
    ensures MaskCardNumber("4111 1111 1111 1111") == "**** **** **** 1111"
  {
    var head, tail := "4111 1111 1111 ", "1111";
    MaskOfLastGroup();
    assert head + tail == "4111 1111 1111 1111";
    MaskIgnoresEarlierCharacters(head, tail);
  }

  // ---------------------------------------------------------------------
  // generateTransactionId

  /**
   * What `Math.random().toString(36)` renders: `0`, or `0.` followed by
   * lower-case base-36 digits.
   */
  predicate IsRandomRendering(t: string) {
    t == "0" || (|t| >= 2 && t[..2] == "0." && forall i :: 2 <= i < |t| ==> IsBase36Lower(t[i]))
  }

  /** `substring(2, 8).toUpperCase()`: up to six digits after `0.`, upper-cased. */
  function RandomSegment(randomText: string): (r: string)
    ensures |r| <= 6
  {
    ToUpperAscii(Substring(randomText, 2, 8))
  }

  /** A random segment holds only upper-case base-36 digits. */
  lemma RandomSegmentDigits(randomText: string)
    requires IsRandomRendering(randomText)
    ensures forall i :: 0 <= i < |RandomSegment(randomText)| ==> IsBase36Upper(RandomSegment(randomText)[i])
  {
    var sub := Substring(randomText, 2, 8);
    assert forall i :: 0 <= i < |sub| ==> IsBase36Lower(sub[i]) by {
      if randomText != "0" {
        assert forall i :: 0 <= i < |sub| ==> sub[i] == randomText[2 + i];
      }
    }
    UpperCaseBase36(sub);
  }

  /**
   * `TXN-<timestamp in base 36>-<random segment>`, all upper case. The clock
   * reading and the rendering of the random number are parameters.
   */
  function GenerateTransactionId(timestamp: nat, randomText: string): (id: string)
    ensures |id| > 5 && id[..4] == "TXN-"
  {
    "TXN-" + ToUpperAscii(Base36(timestamp)) + "-" + RandomSegment(randomText)
  }

  predicate AllBase36Upper(s: string) {
    forall i :: 0 <= i < |s| ==> IsBase36Upper(s[i])
  }

  /**
   * An identifier splits at `-` into exactly three pieces: `TXN`, a non-empty
   * upper-case base-36 rendering that reads back to the timestamp, and at
   * most six upper-case base-36 digits taken from the random text.
   */
  lemma TransactionIdFormat(timestamp: nat, randomText: string)
    requires IsRandomRendering(randomText)
    ensures var parts := Split(GenerateTransactionId(timestamp, randomText), '-');
      |parts| == 3 && parts[0] == "TXN" &&
      parts[1] != [] && AllBase36Upper(parts[1]) && ParseBase36(parts[1]) == timestamp &&
      parts[2] == RandomSegment(randomText) && |parts[2]| <= 6 && AllBase36Upper(parts[2])
  {
    var stamp := ToUpperAscii(Base36(timestamp));
    var segment := RandomSegment(randomText);
    var parts := ["TXN", stamp, segment];
    assert AllBase36Upper(stamp) by { UpperCaseBase36(Base36(timestamp)); }
    assert AllBase36Upper(segment) by { RandomSegmentDigits(randomText); }
    assert ParseBase36(stamp) == timestamp by {
      Base36RoundTrip(timestamp);
      UpperCaseKeepsBase36Value(Base36(timestamp));
    }
    assert Split(GenerateTransactionId(timestamp, randomText), '-') == parts by {
      NoDashInBase36(stamp);
      NoDashInBase36(segment);
      TransactionIdIsJoin(timestamp, randomText);
      JoinThenSplit(parts, '-');
    }
  }

  /** Upper-case base-36 text holds no `-`. */
  lemma NoDashInBase36(s: string)
    requires AllBase36Upper(s)
    ensures '-' !in s
  {
    forall i | 0 <= i < |s| ensures s[i] != '-' { assert IsBase36Upper(s[i]); }
  }

  /** An identifier is its three pieces joined with `-`. */
  lemma TransactionIdIsJoin(timestamp: nat, randomText: string)
    ensures GenerateTransactionId(timestamp, randomText) ==
      Join(["TXN", ToUpperAscii(Base36(timestamp)), RandomSegment(randomText)], '-')
  {
    var parts := ["TXN", ToUpperAscii(Base36(timestamp)), RandomSegment(randomText)];
    assert parts[1..][1..] == [parts[2]];
    assert Join(parts[1..], '-') == parts[1] + "-" + parts[2];
  }

  /**
   * Two identifiers are equal only when they were made at the same instant
   * from the same random digits: distinct timestamps give distinct identifiers.
   */
  lemma TransactionIdDeterminesTimestamp(t1: nat, r1: string, t2: nat, r2: string)
    requires IsRandomRendering(r1) && IsRandomRendering(r2)
    requires GenerateTransactionId(t1, r1) == GenerateTransactionId(t2, r2)
    ensures t1 == t2 && RandomSegment(r1) == RandomSegment(r2)
  {
    TransactionIdFormat(t1, r1);
    TransactionIdFormat(t2, r2);
  }

  // ---------------------------------------------------------------------
  // The store as a state machine

  /**
   * The in-memory slot (a module-level signal) and the session-storage
   * mirror. The mirror holds a record rather than its JSON text, because
   * `JSON.parse(JSON.stringify(r))` gives back `r` for these string fields.
   */
  datatype StoreState = StoreState(memory: Option<TransactionResult>, mirror: Option<TransactionResult>)

  /**
   * A fresh page: the signal starts empty, session storage is whatever
   * persisted, and the two are therefore coherent.
   */
  function Boot(persisted: Option<TransactionResult>): (r: StoreState)
    ensures Coherent(r) && r.mirror == persisted
    ensures GetStep(r).0 == persisted
  {
    StoreState(None, persisted)
  }

  /**
   * `saveTransaction`: both the slot and the mirror receive the record, so
   * the store is coherent and the record is persisted whatever came before.
   */
  function SaveStep(s: StoreState, result: TransactionResult): (r: StoreState)
    ensures Coherent(r) && r.mirror == Some(result)
  {
    StoreState(Some(result), Some(result))
  }

  /**
   * `getTransaction`: the slot when it is set; otherwise the mirror, which is
   * then copied into the slot; otherwise nothing. A read never writes
   * session storage, never invents a record, keeps what it returned in the
   * slot, and keeps a coherent store coherent.
   */
  function GetStep(s: StoreState): (r: (Option<TransactionResult>, StoreState))
    ensures s.memory.Some? ==> r == (s.memory, s)
    ensures r.1.mirror == s.mirror
    ensures r.0 == s.memory || r.0 == s.mirror
    ensures r.0.Some? ==> r.1.memory == r.0
    ensures r.0.None? <==> s.memory.None? && s.mirror.None?
    ensures Coherent(s) ==> Coherent(r.1)
  {
    if s.memory.Some? then (s.memory, s)
    else if s.mirror.Some? then (s.mirror, StoreState(s.mirror, s.mirror))
    else (None, s)
  }

  /** `clearTransaction`: both the slot and the mirror are emptied, so a read finds nothing. */
  function ClearStep(s: StoreState): (r: StoreState)
    ensures Coherent(r) && GetStep(r).0.None?
  {
    StoreState(None, None)
  }

  /**
   * A page reload: the slot is re-created empty, the mirror persists, and
   * in a coherent store a read returns what it returned before the reload.
   */
  function ReloadStep(s: StoreState): (r: StoreState)
    ensures r.mirror == s.mirror && Coherent(r)
    ensures Coherent(s) ==> GetStep(r).0 == GetStep(s).0
  {
    Boot(s.mirror)
  }

  /** The slot, when set, agrees with the mirror. */
  predicate Coherent(s: StoreState) {
    s.memory.None? || s.memory == s.mirror
  }

  /** A read right after a save returns the saved record and changes nothing. */
  lemma ReadYourWrite(s: StoreState, result: TransactionResult)
    ensures GetStep(SaveStep(s, result)) == (Some(result), SaveStep(s, result))
  {
  }

  /** A later save replaces an earlier one completely. */
  lemma SaveOverwrites(s: StoreState, first: TransactionResult, second: TransactionResult)
    ensures SaveStep(SaveStep(s, first), second) == SaveStep(s, second)
  {
  }

  /**
   * Reading twice gives the same answer as reading once, and the second read
   * changes nothing: after the first read the slot is hydrated, so a second
   * read returns the same record whatever the mirror then holds.
   */
  lemma GetIsIdempotent(s: StoreState)
    ensures GetStep(GetStep(s).1) == GetStep(s)
    ensures GetStep(s).0.Some? ==>
      forall m: Option<TransactionResult> :: GetStep(GetStep(s).1.(mirror := m)).0 == GetStep(s).0
  {
  }

  /** After a clear, a read finds nothing; clearing twice is clearing once. */
  lemma ClearThenGet(s: StoreState)
    ensures GetStep(ClearStep(s)) == (None, ClearStep(s))
    ensures ClearStep(ClearStep(s)) == ClearStep(s)
  {
  }

  /**
   * Every step keeps the slot coherent with the mirror, and in a coherent
   * store a read returns exactly what session storage holds.
   */
  lemma CoherenceIsInvariant(s: StoreState, result: TransactionResult)
    requires Coherent(s)
    ensures Coherent(SaveStep(s, result)) && Coherent(GetStep(s).1)
    ensures Coherent(ClearStep(s)) && Coherent(ReloadStep(s))
    ensures GetStep(s).0 == s.mirror
  {
  }

  /** A saved transaction is still found after the page reloads. */
  lemma SaveSurvivesReload(s: StoreState, result: TransactionResult)
    ensures GetStep(ReloadStep(SaveStep(s, result))).0 == Some(result)
  {
  }

  /**
   * The store itself: one instance stands for the module-level signal and
   * the session storage it mirrors into.
   */
  class TransactionStore {
    var memory: Option<TransactionResult>
    var mirror: Option<TransactionResult>

    function State(): StoreState
      reads this
    {
      StoreState(memory, mirror)
    }

    /** A page load: empty signal, and whatever session storage held. */
    constructor(persisted: Option<TransactionResult>)
      ensures State() == Boot(persisted)
    {
      memory := None;
      mirror := persisted;
    }

    method Save(result: TransactionResult)
      modifies this
      ensures State() == SaveStep(old(State()), result)
    {
      memory := Some(result);
      mirror := Some(result);
    }

    method Get() returns (r: Option<TransactionResult>)
      modifies this
      ensures (r, State()) == GetStep(old(State()))
    {
      if memory.Some? {
        return memory;
      }
      if mirror.Some? {
        memory := mirror;
        return mirror;
      }
      return None;
    }

    method Clear()
      modifies this
      ensures State() == ClearStep(old(State()))
    {
      memory := None;
      mirror := None;
    }
  }
}

/**
 * The identifier generator: the date code, the `CXM-MMDDYY-NNNNN` content
 * identifier, and the process-wide `contentCounter` that numbers them.
 */
module Identifier {
  import opened Basics
  import opened Text

  /** Fixed prefix of every content identifier. */
  const Prefix := "CXM"

  /** Minimum width of the zero-padded sequence field. */
  const SequenceWidth: nat := 5

  /**
   * One reading of the clock: `getMonth()` (0-based), `getDate()`,
   * `getFullYear()`, and the text of `toLocaleDateString('en-US')`, which
   * the model keeps opaque.
   */
  datatype Date = Date(month0: nat, day: nat, year: int, localeText: string)

  /** Month and day as a JavaScript `Date` holds them. */
  predicate IsCalendarDate(d: Date) {
    d.month0 < 12 && 1 <= d.day <= 31
  }

  /**
   * `MMDDYY`: month (1-based) and day padded to two digits, then the last two
   * characters of the year. For a calendar date it has six characters, except
   * for the years 0 to 9, whose one-digit year leaves five.
   */
  function DateCode(d: Date): (code: string)
    ensures IsCalendarDate(d) ==> |code| == if 0 <= d.year < 10 then 5 else 6
  {
    DigitsOfLength(d.month0 + 1, 2);
    DigitsOfLength(d.day, 2);
    DigitsOfLength(if d.year < 0 then -d.year else d.year, 1);
    PadStart(DigitsOf(d.month0 + 1), 2, '0') + PadStart(DigitsOf(d.day), 2, '0') + SliceLast(IntToString(d.year), 2)
  }

  /** The counter, left-padded with '0' to at least five characters: exactly five below 100000. */
  function SequenceField(n: nat): (field: string)
    ensures n < 100000 ==> |field| == SequenceWidth
  {
    DigitsOfLength(n, SequenceWidth);
    PadStart(DigitsOf(n), SequenceWidth, '0')
  }

  /** `CXM-${dateCode}-${String(n).padStart(5, '0')}`. */
  function ContentId(dateCode: string, n: nat): (id: string)
    ensures |dateCode| == 6 && n < 100000 ==> |id| == 16
  {
    Prefix + "-" + dateCode + "-" + SequenceField(n)
  }

  /** Partner of ContentId: the number written after the last '-' of an identifier. */
  function SequenceNumber(id: string): Option<nat> {
    var t := AfterLast(id, '-');
    if t != [] && AllDigits(t) then Some(ParseDigits(t)) else None
  }

  /** Every identifier carries its counter value, whatever the date code holds. */
  lemma SequenceNumberOfContentId(dateCode: string, n: nat)
    ensures SequenceNumber(ContentId(dateCode, n)) == Some(n)
  {
    var f := SequenceField(n);
    ParsePadded(n, SequenceWidth);
    assert '-' !in f by {
      forall i | 0 <= i < |f| ensures f[i] != '-' { assert IsDigit(f[i]); }
    }
    assert ContentId(dateCode, n) == (Prefix + "-" + dateCode) + ['-'] + f;
    AfterLastOf(Prefix + "-" + dateCode, '-', f);
  }

  /** Two identifiers are equal only when both their date codes and their counters are. */
  lemma ContentIdInjective(dc1: string, n1: nat, dc2: string, n2: nat)
    requires ContentId(dc1, n1) == ContentId(dc2, n2)
    ensures n1 == n2 && dc1 == dc2
  {
    SequenceNumberOfContentId(dc1, n1);
    SequenceNumberOfContentId(dc2, n2);
    var id := ContentId(dc1, n1);
    assert id == (Prefix + "-" + dc1 + "-") + SequenceField(n1);
    assert id == (Prefix + "-" + dc2 + "-") + SequenceField(n2);
    assert |dc1| == |dc2|;
    assert dc1 == id[4..4 + |dc1|] == dc2;
  }

  /**
   * Below 100000 the sequence field has exactly five characters; from
   * 100000 on, padding adds nothing and every digit appears.
   */
  lemma SequenceFieldWidth(n: nat)
    ensures n < 100000 ==> |SequenceField(n)| == 5
    ensures n >= 100000 ==> SequenceField(n) == DigitsOf(n)
  {
    DigitsOfLength(n, 5);
  }

  /** A one- or two-digit number padded to two places: two digits that read back as the number. */
  lemma TwoDigitField(n: nat)
    requires n < 100
    ensures |PadStart(DigitsOf(n), 2, '0')| == 2
    ensures AllDigits(PadStart(DigitsOf(n), 2, '0'))
    ensures ParseDigits(PadStart(DigitsOf(n), 2, '0')) == n
  {
    DigitsOfLength(n, 2);
    ParsePadded(n, 2);
  }

  /**
   * For a calendar date of a year from 10 on, the date code is six digits
   * that read back as month (1-based), day and the year modulo 100.
   */
  lemma DateCodeFields(d: Date)
    requires IsCalendarDate(d) && d.year >= 10
    ensures |DateCode(d)| == 6 && AllDigits(DateCode(d))
    ensures ParseDigits(DateCode(d)[..2]) == d.month0 + 1
    ensures ParseDigits(DateCode(d)[2..4]) == d.day
    ensures ParseDigits(DateCode(d)[4..]) == d.year % 100
  {
    var m := PadStart(DigitsOf(d.month0 + 1), 2, '0');
    var dd := PadStart(DigitsOf(d.day), 2, '0');
    var y := SliceLast(DigitsOf(d.year), 2);
    TwoDigitField(d.month0 + 1);
    TwoDigitField(d.day);
    LastTwoDigits(d.year);
    var dc := DateCode(d);
    assert dc == m + dd + y;
    assert dc[..2] == m && dc[2..4] == dd && dc[4..] == y;
  }

  /** The date code of June 15, 2024. */
  lemma DateCodeOfJune152024(locale: string)
    ensures DateCode(Date(5, 15, 2024, locale)) == "061524"
  {
    assert DigitsOf(20) == "20";
    assert DigitsOf(202) == "202";
    assert DigitsOf(2024) == "2024";
    assert SliceLast("2024", 2) == "24";
    assert DigitsOf(15) == "15";
    assert PadStart("6", 2, '0') == "06" by { assert Repeat('0', 1) == "0"; }
  }

  /** Small counters are padded with zeros to five places. */
  lemma SmallSequenceFields()
    ensures SequenceField(1) == "00001"
    ensures SequenceField(2) == "00002"
    ensures SequenceField(3) == "00003"
  {
    assert Repeat('0', 2) == "00";
    assert Repeat('0', 4) == "0000" by { assert Repeat('0', 3) == "000"; }
  }

  /** The 3-page upload of June 15, 2024 with the counter at 1. */
  lemma FirstIdentifiersOfJune152024(locale: string)
    ensures ContentId(DateCode(Date(5, 15, 2024, locale)), 1) == "CXM-061524-00001"
    ensures ContentId(DateCode(Date(5, 15, 2024, locale)), 2) == "CXM-061524-00002"
    ensures ContentId(DateCode(Date(5, 15, 2024, locale)), 3) == "CXM-061524-00003"
  {
    var dc := DateCode(Date(5, 15, 2024, locale));
    DateCodeOfJune152024(locale);
    SmallSequenceFields();
    assert ContentId(dc, 1) == "CXM" + "-" + "061524" + "-" + "00001";
    assert ContentId(dc, 2) == "CXM" + "-" + "061524" + "-" + "00002";
    assert ContentId(dc, 3) == "CXM" + "-" + "061524" + "-" + "00003";
  }

  /** Identifiers whose sequence numbers are 1, 2, 3, ... in issuance order. */
  ghost predicate IssuedInOrder(ids: seq<string>) {
    forall k {:trigger SequenceNumber(ids[k])} :: 0 <= k < |ids| ==> SequenceNumber(ids[k]) == Some(k + 1)
  }

  /**
   * Issuing the identifier numbered one past the last keeps the record in
   * order, and that identifier was not issued before.
   */
  lemma IssuedInOrderAppend(ids: seq<string>, id: string)
    requires IssuedInOrder(ids) && SequenceNumber(id) == Some(|ids| + 1)
    ensures IssuedInOrder(ids + [id])
    ensures id !in ids
  {
    forall k | 0 <= k < |ids| + 1
      ensures SequenceNumber((ids + [id])[k]) == Some(k + 1)
    {
      if k < |ids| {
        assert (ids + [id])[k] == ids[k];
      }
    }
  }

  /** Identifiers numbered in issuance order are pairwise distinct. */
  lemma IssuedDistinct(ids: seq<string>)
    requires IssuedInOrder(ids)
    ensures forall i, j :: 0 <= i < j < |ids| ==> ids[i] != ids[j]
  {
    forall i, j | 0 <= i < j < |ids|
      ensures ids[i] != ids[j]
    {
      assert SequenceNumber(ids[i]) != SequenceNumber(ids[j]);
    }
  }

  /**
   * The process-wide `contentCounter`, holding the number the next
   * identifier will carry, with the ghost record of every identifier issued.
   */
  class ContentCounter {
    var value: nat
    ghost var issued: seq<string>

    ghost predicate Valid()
      reads this
    {
      value == |issued| + 1 && IssuedInOrder(issued)
    }

    /** Process start: `let contentCounter = 1`. */
    constructor ()
      ensures Valid() && value == 1 && issued == []
    {
      value := 1;
      issued := [];
    }

    /** Formats the identifier for the given date and the current counter, then increments the counter. */
    method NextId(d: Date) returns (id: string)
      requires Valid()
      modifies this
      ensures Valid()
      ensures id == ContentId(DateCode(d), old(value))
      ensures value == old(value) + 1 && issued == old(issued) + [id]
      ensures id !in old(issued)
    {
      id := ContentId(DateCode(d), value);
      SequenceNumberOfContentId(DateCode(d), value);
      IssuedInOrderAppend(issued, id);
      value := value + 1;
      issued := issued + [id];
    }
  }
}

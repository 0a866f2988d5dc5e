/**
 * One row of the conversation view (ConversationOneMessage): its identity
 * (equals and hashCode look at the message id only) and its display order
 * (listOrder ascending, then newer createdDate first, then larger id first).
 * The view and avatar fields are not part of this model.
 */
module Conversation {

  const TWO_31: int := 0x8000_0000
  const TWO_32: int := 0x1_0000_0000
  const TWO_63: int := 0x8000_0000_0000_0000
  const TWO_64: int := 0x1_0000_0000_0000_0000

  /** A Java int. */
  type Int32 = x: int | -TWO_31 <= x < TWO_31
  /** A Java long. */
  type Int64 = x: int | -TWO_63 <= x < TWO_63

  /** Java int arithmetic: the two's complement wrap-around of a mathematical result. */
  function Wrap32(x: int): (r: Int32)
    ensures -TWO_31 <= x < TWO_31 ==> r == x
  {
    (x + TWO_31) % TWO_32 - TWO_31
  }

  /** Java long arithmetic. */
  function Wrap64(x: int): (r: Int64)
    ensures -TWO_63 <= x < TWO_63 ==> r == x
  {
    (x + TWO_63) % TWO_64 - TWO_63
  }

  datatype MessageRow = MessageRow(
    id: Int64,
    inReplyToMsgId: Int64,
    createdDate: Int64,
    linkedUserId: Int64,
    favorited: bool,
    author: string,
    rebloggersString: string,   // the names of the known rebloggers, comma separated
    body: string,
    via: string,
    inReplyToName: string,
    recipientName: string,
    listOrder: Int32,           // position in the list, from 0
    historyOrder: Int32,        // the reverse of listOrder, from 1
    nReplies: Int32,
    nParentReplies: Int32,
    indentLevel: Int32,
    replyLevel: Int32)

  /** new ConversationOneMessage(idIn, replyLevelIn). */
  function NewRow(idIn: Int64, replyLevelIn: Int32): (r: MessageRow)
    ensures r.id == idIn && r.replyLevel == replyLevelIn
    ensures r.inReplyToMsgId == 0 && r.createdDate == 0 && r.linkedUserId == 0 && !r.favorited
    ensures r.listOrder == 0 && r.historyOrder == 0 && r.indentLevel == 0
    ensures r.nReplies == 0 && r.nParentReplies == 0
    ensures r.author == "" && r.rebloggersString == "" && r.body == "" && r.via == ""
    ensures r.inReplyToName == "" && r.recipientName == ""
  {
    MessageRow(idIn, 0, 0, 0, false, "", "", "", "", "", "", 0, 0, 0, 0, 0, replyLevelIn)
  }

  /**
   * equals: two rows are the same row when they show the same message;
   * equal rows hash alike, and rows compareTo puts at one place are equal.
   */
  predicate Equals(a: MessageRow, b: MessageRow)
    ensures Equals(a, b) ==> HashCode(a) == HashCode(b)
    ensures CompareTo(a, b) == 0 ==> Equals(a, b)
  {
    a.id == b.id
  }

  /** Bitwise exclusive or of two non-negative numbers. */
  function Xor(a: nat, b: nat): nat
    decreases a + b
  {
    if a == 0 && b == 0 then 0
    else (if a % 2 != b % 2 then 1 else 0) + 2 * Xor(a / 2, b / 2)
  }

  function Pow2(n: nat): (r: nat)
    ensures r > 0
  {
    if n == 0 then 1 else 2 * Pow2(n - 1)
  }

  lemma {:induction false} Pow2Add(a: nat, b: nat)
    ensures Pow2(a + b) == Pow2(a) * Pow2(b)
    decreases a
  {
    if a != 0 {
      Pow2Add(a - 1, b);
    }
  }

  lemma Pow2Of32()
    ensures Pow2(32) == TWO_32
  {
    assert Pow2(2) == 4;
    Pow2Add(2, 2);
    Pow2Add(4, 4);
    Pow2Add(8, 8);
    Pow2Add(16, 16);
  }

  /** Xor with n one bits flips the n low bits of a number below 2^n. */
  lemma {:induction false} XorOnes(a: nat, n: nat)
    requires a < Pow2(n)
    ensures Xor(a, Pow2(n) - 1) == Pow2(n) - 1 - a
    decreases n
  {
    if n != 0 {
      XorOnes(a / 2, n - 1);
    }
  }

  lemma {:induction false} XorZero(a: nat)
    ensures Xor(a, 0) == a
    decreases a
  {
    if a != 0 {
      XorZero(a / 2);
    }
  }

  /**
   * Long.hashCode: the value's high 32 bits xor-ed into its low 32 bits,
   * the low 32 bits of that read back as an int.
   */
  function LongHashCode(v: Int64): (h: Int32)
    ensures 0 <= v < TWO_31 ==> h == v
    ensures -TWO_31 <= v < 0 ==> h == -v - 1
  {
    var bits := if v < 0 then v + TWO_64 else v;
    SmallLongHashes(v, bits);
    Wrap32(Xor(bits % TWO_32, bits / TWO_32))
  }

  lemma SmallLongHashes(v: Int64, bits: nat)
    requires bits == if v < 0 then v + TWO_64 else v
    ensures 0 <= v < TWO_31 ==> Xor(bits % TWO_32, bits / TWO_32) == v
    ensures -TWO_31 <= v < 0 ==> Xor(bits % TWO_32, bits / TWO_32) == -v - 1
  {
    if 0 <= v < TWO_31 {
      assert bits / TWO_32 == 0 && bits % TWO_32 == v;
      XorZero(v);
    } else if -TWO_31 <= v < 0 {
      assert bits / TWO_32 == TWO_32 - 1 && bits % TWO_32 == v + TWO_32;
      Pow2Of32();
      XorOnes(v + TWO_32, 32);
    }
  }

  /** hashCode: the hash of the message id, so a small id is its own hash. */
  function HashCode(r: MessageRow): (h: Int32)
    ensures 0 <= r.id < TWO_31 ==> h == r.id
    ensures -TWO_31 <= r.id < 0 ==> h == -r.id - 1
  {
    LongHashCode(r.id)
  }

  /** Equal rows hash alike, as the Object contract asks. */
  lemma EqualRowsHashAlike(a: MessageRow, b: MessageRow)
    requires Equals(a, b)
    ensures HashCode(a) == HashCode(b)
  {
  }


  /** The three sort keys of a row. */
  datatype Key = Key(listOrder: int, createdDate: int, id: int)

  function KeyOf(r: MessageRow): Key {
    Key(r.listOrder, r.createdDate, r.id)
  }

  /**
   * The intended order as a reference definition: a smaller listOrder first;
   * on a tie the newer message first; on a tie again the larger id first.
   */
  predicate Before(a: MessageRow, b: MessageRow) {
    a.listOrder < b.listOrder
    || (a.listOrder == b.listOrder && a.createdDate > b.createdDate)
    || (a.listOrder == b.listOrder && a.createdDate == b.createdDate && a.id > b.id)
  }

  /**
   * compareTo as written: the difference of the list orders in int
   * arithmetic, and on a tie the sign of a long difference of the dates,
   * then of the ids.
   */
  function CompareToAsWritten(a: MessageRow, another: MessageRow): (r: Int32)
    ensures r == 0 <==> KeyOf(a) == KeyOf(another)
    ensures a.listOrder == another.listOrder ==> r in {-1, 0, 1}
  {
    var compared := Wrap32(a.listOrder - another.listOrder);
    if compared != 0 then compared
    else if a.createdDate == another.createdDate then
      if a.id == another.id then 0
      else if Wrap64(another.id - a.id) > 0 then 1 else -1
    else if Wrap64(another.createdDate - a.createdDate) > 0 then 1 else -1
  }

  /** compareTo as intended: the same three keys, compared without overflow. */
  function CompareTo(a: MessageRow, another: MessageRow): (r: int)
    ensures r == 0 <==> KeyOf(a) == KeyOf(another)
    ensures r < 0 <==> Before(a, another)
    ensures r > 0 <==> Before(another, a)
  {
    if a.listOrder != another.listOrder then (if a.listOrder < another.listOrder then -1 else 1)
    else if a.createdDate != another.createdDate then (if another.createdDate > a.createdDate then 1 else -1)
    else if a.id != another.id then (if another.id > a.id then 1 else -1)
    else 0
  }

  function Sign(x: int): int {
    if x < 0 then -1 else if x == 0 then 0 else 1
  }

  /** No difference compareTo takes leaves the range of its Java type. */
  predicate NoOverflow(a: MessageRow, b: MessageRow) {
    -TWO_31 <= a.listOrder - b.listOrder < TWO_31
    && -TWO_63 <= b.createdDate - a.createdDate < TWO_63
    && -TWO_63 <= b.id - a.id < TWO_63
  }

  /** Where no difference overflows, the code as written orders rows as intended. */
  lemma AsWrittenAgreesWithoutOverflow(a: MessageRow, b: MessageRow)
    requires NoOverflow(a, b)
    ensures Sign(CompareToAsWritten(a, b)) == CompareTo(a, b)
  {
  }

  /** List orders, dates and ids are never negative in practice, and then nothing overflows. */
  lemma NonNegativeRowsAgree(a: MessageRow, b: MessageRow)
    requires a.listOrder >= 0 && b.listOrder >= 0
    requires a.createdDate >= 0 && b.createdDate >= 0 && a.id >= 0 && b.id >= 0
    ensures Sign(CompareToAsWritten(a, b)) == CompareTo(a, b)
  {
    AsWrittenAgreesWithoutOverflow(a, b);
  }

  /**
   * As written the order is not transitive once a list-order difference
   * wraps: with list orders MIN_VALUE, 0 and 1 the rows form a cycle.
   */
  lemma AsWrittenIsNotTransitive()
    ensures var a := NewRow(1, 0).(listOrder := -TWO_31);
            var b := NewRow(2, 0);
            var c := NewRow(3, 0).(listOrder := 1);
            CompareToAsWritten(a, b) < 0 && CompareToAsWritten(b, c) < 0 && CompareToAsWritten(a, c) > 0
  {
    var a := NewRow(1, 0).(listOrder := -TWO_31);
    var c := NewRow(3, 0).(listOrder := 1);
    assert Wrap32(a.listOrder - c.listOrder) == TWO_31 - 1;
  }

  /** Rows compareTo puts at the same place are equal rows. */
  lemma CompareToZeroIsEquals(a: MessageRow, b: MessageRow)
    requires CompareTo(a, b) == 0
    ensures Equals(a, b) && HashCode(a) == HashCode(b)
  {
  }

  /**
   * The converse does not hold: a row and a copy of it moved to another
   * place in the list are equal but do not compare as 0.
   */
  lemma EqualsIsCoarserThanCompareTo(r: MessageRow)
    requires r.listOrder < TWO_31 - 1
    ensures var moved := r.(listOrder := r.listOrder + 1);
            Equals(r, moved) && CompareTo(r, moved) < 0
  {
  }

  lemma CompareToAntisymmetric(a: MessageRow, b: MessageRow)
    ensures Sign(CompareTo(a, b)) == -Sign(CompareTo(b, a))
  {
  }

  lemma CompareToTransitive(a: MessageRow, b: MessageRow, c: MessageRow)
    requires CompareTo(a, b) < 0 && CompareTo(b, c) < 0
    ensures CompareTo(a, c) < 0
  {
  }

  /** Any two rows with different keys are ordered one way or the other. */
  lemma CompareToTotal(a: MessageRow, b: MessageRow)
    ensures KeyOf(a) == KeyOf(b) || Before(a, b) || Before(b, a)
  {
  }

  /** A list in strictly increasing compareTo order. */
  predicate Sorted(rows: seq<MessageRow>) {
    forall i, j :: 0 <= i < j < |rows| ==> CompareTo(rows[i], rows[j]) < 0
  }

  /** The first row of a strictly sorted list comes before every other row in it. */
  lemma FirstIsLeast(rows: seq<MessageRow>, x: MessageRow)
    requires Sorted(rows) && |rows| > 0 && x in rows && x != rows[0]
    ensures CompareTo(rows[0], x) < 0
  {
    var j :| 0 <= j < |rows| && rows[j] == x;
    assert j != 0;
  }

  /** Two strictly sorted lists of the same rows start with the same row. */
  lemma SameFirst(s: seq<MessageRow>, t: seq<MessageRow>)
    requires Sorted(s) && Sorted(t) && |s| > 0 && |t| > 0
    requires s[0] in t && t[0] in s
    ensures s[0] == t[0]
  {
    if s[0] != t[0] {
      FirstIsLeast(s, t[0]);
      FirstIsLeast(t, s[0]);
      assert false;
    }
  }

  lemma TailSorted(s: seq<MessageRow>)
    requires Sorted(s) && |s| > 0
    ensures Sorted(s[1..])
  {
    forall i, j | 0 <= i < j < |s| - 1
      ensures CompareTo(s[1..][i], s[1..][j]) < 0
    {
      assert s[1..][i] == s[i + 1] && s[1..][j] == s[j + 1];
    }
  }

  lemma SameTails(s: seq<MessageRow>, t: seq<MessageRow>)
    requires |s| > 0 && |t| > 0 && s[0] == t[0] && multiset(s) == multiset(t)
    ensures multiset(s[1..]) == multiset(t[1..])
  {
    assert s == [s[0]] + s[1..] && t == [t[0]] + t[1..];
    assert multiset(s[1..]) == multiset(s) - multiset{s[0]};
    assert multiset(t[1..]) == multiset(t) - multiset{t[0]};
  }

  /**
   * Sorting is deterministic: two strictly sorted lists of the same rows
   * are the same list.
   */
  lemma {:induction false} SortedIsUnique(s: seq<MessageRow>, t: seq<MessageRow>)
    requires Sorted(s) && Sorted(t) && multiset(s) == multiset(t)
    ensures s == t
    decreases |s|
  {
    assert |t| == |multiset(t)| == |multiset(s)| == |s|;
    if |s| > 0 {
      assert s[0] in multiset(t) && t[0] in multiset(s);
      SameFirst(s, t);
      SameTails(s, t);
      TailSorted(s);
      TailSorted(t);
      SortedIsUnique(s[1..], t[1..]);
      assert s == [s[0]] + s[1..] && t == [t[0]] + t[1..];
    }
  }
}

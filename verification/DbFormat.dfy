/**
 Internal keys of the store (rocksdb-3.9/db/dbformat.h and dbformat.cc).

 A user key is compared only through the user comparator, so it is modelled by the
 elements of a total order (int).  An internal key is a user key followed by one
 64-bit number that packs a 56-bit sequence number and an 8-bit value type.
 */
module DbFormat {

  type UserKey = int
  type Bytes = string

  datatype Option<T> = None | Some(value: T)

  const MAX_SEQUENCE: nat := 0xff_ffff_ffff_ffff

  /** kTypeDeletion = 0, kTypeValue = 1, kTypeMerge = 2: the types a table or memtable may hold. */
  datatype ValueType = Deletion | Put | Merge

  /** kValueTypeForSeek: the highest-numbered type, so that a seek lands before every type. */
  const TYPE_FOR_SEEK: ValueType := Merge

  function TypeCode(t: ValueType): (c: nat)
  {
    match t case Deletion => 0 case Put => 1 case Merge => 2
  }

  /** PackSequenceAndType: (seq << 8) | t. */
  function Pack(seqno: nat, t: ValueType): (n: nat)
  {
    seqno * 256 + TypeCode(t)
  }

  /** The type is the low byte, with the codes of the file format, and the sequence number the seven bytes above. */
  lemma PackFields(seqno: nat, t: ValueType)
    ensures Pack(seqno, t) / 256 == seqno
    ensures Pack(seqno, t) % 256 == if t == Deletion then 0 else if t == Put then 1 else 2
    ensures seqno <= MAX_SEQUENCE <==> Pack(seqno, t) < 18446744073709551616
  {
  }

  datatype Entry = Entry(key: UserKey, seqno: nat, kind: ValueType, value: Bytes)

  /** InternalKeyComparator::Compare < 0: user key ascending, packed number descending. */
  predicate Before(k: UserKey, n: nat, k': UserKey, n': nat)
  {
    k < k' || (k == k' && n > n')
  }

  predicate InternalLess(a: Entry, b: Entry)
  {
    Before(a.key, Pack(a.seqno, a.kind), b.key, Pack(b.seqno, b.kind))
  }

  /** Strictly increasing in internal-key order. */
  ghost predicate Sorted(es: seq<Entry>)
  {
    forall i, j :: 0 <= i < j < |es| ==> InternalLess(es[i], es[j])
  }

  /** Packing loses nothing and orders by sequence number first, then by type. */
  lemma PackOrders(s: nat, t: ValueType, s': nat, t': ValueType)
    ensures Pack(s, t) < Pack(s', t') <==> s < s' || (s == s' && TypeCode(t) < TypeCode(t'))
    ensures Pack(s, t) == Pack(s', t') <==> s == s' && t == t'
  {
  }
}

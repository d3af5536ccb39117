/**
 DBIter (rocksdb-3.9/db/db_iter.cc): a bidirectional cursor over the versions of a store
 that must behave as a cursor over the visible map at one sequence number.
 */
module DbIter {
  import opened DbFormat
  import opened VisibleMap

  /** A half-line of user keys. */
  datatype Bound = Everything | AtLeast(k: UserKey) | MoreThan(k: UserKey) | AtMost(k: UserKey) | LessThan(k: UserKey)

  predicate Within(b: Bound, k: UserKey)
  {
    match b
    case Everything => true
    case AtLeast(l) => l <= k
    case MoreThan(l) => l < k
    case AtMost(h) => k <= h
    case LessThan(h) => k < h
  }

  predicate Upward(b: Bound)
  {
    b.Everything? || b.AtLeast? || b.MoreThan?
  }

  predicate Downward(b: Bound)
  {
    b.Everything? || b.AtMost? || b.LessThan?
  }

  class DBIter {
    const es: seq<Entry>       // what the internal iterator ranges over
    const sequence: nat
    const maxSkip: nat
    const op: FullMerge
    var pos: int               // position of the internal iterator; off either end it is not valid
    var savedKey: UserKey
    var savedValue: Bytes
    var forward: bool
    var valid: bool
    var merged: bool

    constructor (es: seq<Entry>, op: FullMerge, sequence: nat, maxSkip: nat)
      requires Ordered(es) && maxSkip >= 1
      requires sequence <= MAX_SEQUENCE && forall i :: 0 <= i < |es| ==> es[i].seqno <= MAX_SEQUENCE
      ensures this.es == es && this.op == op && this.sequence == sequence && this.maxSkip == maxSkip
      ensures Good() && !valid
    {
      this.es, this.op, this.sequence, this.maxSkip := es, op, sequence, maxSkip;
      pos, savedKey, savedValue := -1, 0, "";
      forward, valid, merged := true, false, false;
    }

    ghost predicate Store()
    {
      && Ordered(es) && maxSkip >= 1 && sequence <= MAX_SEQUENCE
      && forall i :: 0 <= i < |es| ==> es[i].seqno <= MAX_SEQUENCE
    }

    ghost predicate Ok()
      reads this
    {
      Store() && -1 <= pos <= |es|
    }

    predicate IterValid()
      reads this
    {
      0 <= pos < |es|
    }

    /** The visible map this cursor stands for. */
    ghost function Shown(k: UserKey): (v: Option<Bytes>)
    {
      ValueAt(es, op, sequence, k)
    }

    /** Everything up to p is below k, everything after is not. */
    ghost predicate Splits(p: int, k: UserKey)
      requires -1 <= p <= |es|
    {
      && (forall i :: 0 <= i <= p && i < |es| ==> es[i].key < k)
      && (forall i :: p < i < |es| ==> k <= es[i].key)
    }

    /**
     The documented position: forward, on the entry that yields the value (or, for a merged
     value, past the entries folded so far); backward, just before all entries of the key.
     */
    ghost predicate Good()
      reads this
    {
      && Ok()
      && (valid ==>
            && Shown(savedKey).Some?
            && (if forward && !merged then
                  pos == Start(es, savedKey, sequence) && IterValid() && es[pos].key == savedKey && es[pos].kind == Put
                else savedValue == Shown(savedKey).value)
            && (forward && merged ==> OnFold())
            && (!forward ==> pos < |es| && Splits(pos, savedKey)))
    }

    /** On a merged value: past the entries of the saved key that were folded. */
    ghost predicate OnFold()
      reads this
    {
      var start := Start(es, savedKey, sequence);
      && start < |es| && es[start].kind == Merge && start < pos == FoldEnd(es, start, savedKey)
      && forall i :: 0 <= i < pos ==> es[i].key <= savedKey
    }

    function Value(): (v: Bytes)
      reads this
      requires Good() && valid
      ensures Some(v) == Shown(savedKey)
    {
      if forward && !merged then es[pos].value else savedValue
    }

    /** The cursor is on the least visible key within b, or invalid if there is none. */
    ghost predicate OnFirst(b: Bound)
      reads this
    {
      && Good()
      && (valid ==> Within(b, savedKey) && forall k :: Within(b, k) && k < savedKey ==> Shown(k).None?)
      && (!valid ==> forall k :: Within(b, k) ==> Shown(k).None?)
    }

    /** The cursor is on the greatest visible key within b, or invalid if there is none. */
    ghost predicate OnLast(b: Bound)
      reads this
    {
      && Good()
      && (valid ==> Within(b, savedKey) && forall k :: Within(b, k) && savedKey < k ==> Shown(k).None?)
      && (!valid ==> forall k :: Within(b, k) ==> Shown(k).None?)
    }

    /** Iterator::Seek of the internal iterator. */
    method SeekInternal(k: UserKey, n: nat)
      requires Ok()
      modifies this`pos
      ensures pos == SeekIndex(es, k, n, 0)
    {
      pos := 0;
      while pos < |es| && Before(es[pos].key, Pack(es[pos].seqno, es[pos].kind), k, n)
        invariant 0 <= pos <= |es|
        invariant SeekIndex(es, k, n, 0) == SeekIndex(es, k, n, pos)
      {
        pos := pos + 1;
      }
    }

    // -------------------------------------------------------------- moving forward

    /**
     What a forward scan knows: keys of b at or below savedKey are done when skipping, and no
     other key of b has a visible version before the position.
     */
    ghost predicate Scan(b: Bound, skipping: bool, at: int, saved: UserKey)
      requires 0 <= at <= |es|
    {
      && (forall i :: 0 <= i < at && Within(b, es[i].key) && !(skipping && es[i].key <= saved) ==>
          es[i].seqno > sequence)
      && (forall i :: at <= i < |es| && !(skipping && es[i].key <= saved) ==> Within(b, es[i].key))
      && (skipping ==> forall k :: Within(b, k) && k <= saved ==> Shown(k).None?)
    }

    /** A key that the scan has not reached and that lies below the current entry is not visible. */
    lemma NothingBelow(b: Bound, skipping: bool, at: int, saved: UserKey, k: UserKey)
      requires Store() && Upward(b) && 0 <= at <= |es| && Scan(b, skipping, at, saved) && Within(b, k)
      requires at < |es| ==> k < es[at].key
      ensures Shown(k).None?
    {
      if Shown(k).Some? {
        VisibleHasVersion(es, op, sequence, k);
      }
    }

    /** The current entry, if visible and not skipped, is its key's newest visible version. */
    lemma AtStart(b: Bound, skipping: bool, at: int, saved: UserKey)
      requires Store() && Upward(b) && 0 <= at < |es| && Scan(b, skipping, at, saved)
      requires es[at].seqno <= sequence && !(skipping && es[at].key <= saved)
      ensures Within(b, es[at].key) && Start(es, es[at].key, sequence) == at
      ensures forall k :: Within(b, k) && k < es[at].key ==> Shown(k).None?
    {
      StartIs(es, es[at].key, sequence, at);
      forall k | Within(b, k) && k < es[at].key ensures Shown(k).None? {
        NothingBelow(b, skipping, at, saved, k);
      }
    }

    /** Seeking to sequence number zero of the saved key never moves backwards. */
    lemma ReseekAhead(at: int, saved: UserKey)
      requires Store() && 0 <= at < |es| && es[at].key <= saved
      ensures at <= SeekIndex(es, saved, Pack(0, TYPE_FOR_SEEK), 0)
      ensures forall i :: 0 <= i < SeekIndex(es, saved, Pack(0, TYPE_FOR_SEEK), 0) ==> es[i].key <= saved
    {
      var p := SeekIndex(es, saved, Pack(0, TYPE_FOR_SEEK), 0);
      assert p < |es| && es[p].key == saved ==> es[p].seqno == 0;
    }

    /** The switch on the entry's type, reached with the newest visible version of an unskipped key. */
    method TakeEntry(ghost skipping: bool, ghost b: Bound) returns (done: bool)
      requires Ok() && IterValid() && forward && !merged && Upward(b) && Scan(b, skipping, pos, savedKey)
      requires es[pos].seqno <= sequence && !(skipping && es[pos].key <= savedKey)
      modifies this
      ensures forward && (done ==> OnFirst(b))
      ensures !done ==> !merged && pos == old(pos) && savedKey == es[pos].key && Scan(b, true, pos, savedKey)
    {
      var e := es[pos];
      AtStart(b, skipping, pos, savedKey);
      VisibleByKind(es, op, sequence, e.key);
      savedKey := e.key;
      match e.kind
      case Deletion =>
        done := false;
      case Put =>
        valid := true;
        done := true;
      case Merge =>
        merged := true;
        valid := true;
        MergeValuesNewToOld();
        done := true;
    }

    /** Moving on from the current entry: one step, or a seek when too many were skipped. */
    method Advance(skipping: bool, numSkipped: nat, ghost b: Bound) returns (skipped: nat)
      requires Ok() && IterValid() && numSkipped <= maxSkip + 1 && Scan(b, skipping, pos, savedKey)
      requires es[pos].seqno > sequence || (skipping && es[pos].key <= savedKey)
      requires numSkipped > maxSkip ==> skipping && es[pos].key <= savedKey
      modifies this`pos
      ensures old(pos) <= pos <= |es| && Scan(b, skipping, pos, savedKey)
      ensures skipped == if numSkipped > maxSkip then 0 else numSkipped
      ensures numSkipped <= maxSkip ==> old(pos) < pos
    {
      skipped := numSkipped;
      if skipping && numSkipped > maxSkip {
        skipped := 0;
        ReseekAhead(pos, savedKey);
        SeekInternal(savedKey, Pack(0, TYPE_FOR_SEEK));
      } else {
        pos := pos + 1;
      }
    }

    /** FindNextUserEntryInternal: lands on the first visible key of b. */
    method FindNextUserEntry(skip: bool, ghost b: Bound)
      requires Ok() && IterValid() && forward && Upward(b) && Scan(b, skip, pos, savedKey)
      modifies this
      ensures OnFirst(b) && forward
    {
      var skipping, numSkipped := skip, 0;
      merged := false;
      while true
        invariant Ok() && IterValid() && forward && !merged && Scan(b, skipping, pos, savedKey)
        invariant 0 <= numSkipped <= maxSkip
        decreases |es| - pos, numSkipped
      {
        var e := es[pos];
        if e.seqno <= sequence {
          if skipping && e.key <= savedKey {
            numSkipped := numSkipped + 1;
          } else {
            var done := TakeEntry(skipping, b);
            if done {
              return;
            }
            skipping, numSkipped := true, 0;
          }
        }
        numSkipped := Advance(skipping, numSkipped, b);
        if pos >= |es| {
          break;
        }
      }
      valid := false;
      forall k | Within(b, k) ensures Shown(k).None? {
        if !(skipping && k <= savedKey) { NothingBelow(b, skipping, pos, savedKey, k); }
      }
    }

    /** MergeValuesNewToOld: folds the operands from the current entry down to the base. */
    method MergeValuesNewToOld()
      requires Ok() && IterValid() && es[pos].kind == Merge && es[pos].key == savedKey
      modifies this`pos, this`savedValue
      ensures old(pos) < pos == FoldEnd(es, old(pos), savedKey)
      ensures Some(savedValue) == Combine(op, savedKey, Chain(es, old(pos), savedKey))
      ensures forall i :: 0 <= i < pos ==> es[i].key <= savedKey
    {
      hide Ordered, Chain, FoldEnd;
      ghost var whole := Chain(es, pos, savedKey);
      var operands := [es[pos].value];
      ChainStep(pos, savedKey);
      pos := pos + 1;
      while pos < |es| && es[pos].key == savedKey && es[pos].kind == Merge
        invariant old(pos) < pos <= |es| && operands != []
        invariant es[pos-1].key == savedKey && FoldEnd(es, old(pos), savedKey) == FoldEnd(es, pos, savedKey)
        invariant whole == Versions(Chain(es, pos, savedKey).base, Chain(es, pos, savedKey).operands + operands)
      {
        ChainStep(pos, savedKey);
        operands := [es[pos].value] + operands;
        pos := pos + 1;
      }
      ChainStep(pos, savedKey);
      if pos < |es| && es[pos].key == savedKey {
        if es[pos].kind == Deletion {
          savedValue := op(savedKey, None, operands);
        } else {
          savedValue := op(savedKey, Some(es[pos].value), operands);
        }
        pos := pos + 1;
      } else {
        savedValue := op(savedKey, None, operands);
      }
      assert whole.operands == operands;
      UpToKey(pos);
    }

    lemma ChainStep(p: nat, k: UserKey)
      requires p <= |es|
      ensures p == |es| || es[p].key != k ==> Chain(es, p, k) == Versions(None, []) && FoldEnd(es, p, k) == p
      ensures p < |es| && es[p].key == k && es[p].kind != Merge ==>
        && Chain(es, p, k) == Versions(if es[p].kind == Put then Some(es[p].value) else None, [])
        && FoldEnd(es, p, k) == p + 1
      ensures p < |es| && es[p].key == k && es[p].kind == Merge ==>
        && Chain(es, p, k) == Versions(Chain(es, p + 1, k).base, Chain(es, p + 1, k).operands + [es[p].value])
        && FoldEnd(es, p, k) == FoldEnd(es, p + 1, k)
    {
    }

    lemma UpToKey(p: int)
      requires Store() && 0 < p <= |es|
      ensures forall i :: 0 <= i < p ==> es[i].key <= es[p-1].key
    {
    }

    // -------------------------------------------------------------- moving backward

    ghost predicate LastOfKey(p: int)
      requires 0 <= p < |es|
    {
      p + 1 < |es| ==> es[p].key != es[p+1].key
    }

    /** Seeking to the highest sequence number of a key lands on its first entry. */
    lemma SeekFirstOf(k: UserKey)
      requires Store()
      ensures Splits(SeekIndex(es, k, Pack(MAX_SEQUENCE, TYPE_FOR_SEEK), 0) - 1, k)
    {
    }

    /** FindPrevUserKey: leaves the saved key's entries towards the front; elsewhere it does nothing. */
    method FindPrevUserKey()
      requires Ok()
      modifies this`pos
      ensures Ok()
      ensures old(IterValid()) && es[old(pos)].key == savedKey ==> pos < old(pos) && Splits(pos, savedKey)
      ensures !(old(IterValid()) && es[old(pos)].key == savedKey) ==> pos == old(pos)
    {
      if !IterValid() {
        return;
      }
      var numSkipped := 0;
      while IterValid() && es[pos].key == savedKey
        invariant -1 <= pos <= old(pos)
        invariant es[old(pos)].key != savedKey ==> pos == old(pos)
        invariant es[old(pos)].key == savedKey ==> forall i :: pos < i < |es| ==> savedKey <= es[i].key
        invariant pos < old(pos) || numSkipped == 0
        decreases pos
      {
        if numSkipped >= maxSkip {
          numSkipped := 0;
          SeekFirstOf(savedKey);
          ghost var before := pos;
          SeekInternal(savedKey, Pack(MAX_SEQUENCE, TYPE_FOR_SEEK));
          assert pos <= before;
        }
        pos := pos - 1;
        numSkipped := numSkipped + 1;
      }
    }

    /** FindValueForCurrentKeyUsingSeek: the same answer, found from the newest visible version. */
    method FindValueForCurrentKeyUsingSeek() returns (found: bool)
      requires Ok() && IterValid() && es[pos].key == savedKey && es[pos].seqno <= sequence
      modifies this`pos, this`savedValue, this`valid
      ensures IterValid() && es[pos].key == savedKey
      ensures valid == found && (found <==> Shown(savedKey).Some?)
      ensures found ==> Some(savedValue) == Shown(savedKey)
    {
      StartFacts(es, savedKey, sequence);
      ghost var start := Start(es, savedKey, sequence);
      assert start <= pos && es[start].key == savedKey;
      SeekInternal(savedKey, Pack(sequence, TYPE_FOR_SEEK));
      if es[pos].kind != Merge {
        found := es[pos].kind == Put;
        if found { savedValue := es[pos].value; }
        valid := found;
        return;
      }
      var operands := [];
      ghost var whole := Chain(es, start, savedKey);
      while pos < |es| && es[pos].key == savedKey && es[pos].kind == Merge
        invariant start <= pos <= |es| && (operands == [] ==> pos == start)
        invariant whole == Versions(Chain(es, pos, savedKey).base, Chain(es, pos, savedKey).operands + operands)
      {
        operands := [es[pos].value] + operands;
        pos := pos + 1;
      }
      assert whole.operands == operands;
      if pos < |es| && es[pos].key == savedKey && es[pos].kind == Put {
        savedValue := op(savedKey, Some(es[pos].value), operands);
      } else {
        savedValue := op(savedKey, None, operands);
        if pos >= |es| || es[pos].key != savedKey {
          SeekInternal(savedKey, Pack(sequence, TYPE_FOR_SEEK));
        }
      }
      valid := true;
      found := true;
    }

    /** Scanning a key towards newer versions stops just before its newest visible version. */
    lemma ScanStops(last: int, at: int, k: UserKey)
      requires Store() && -1 <= at <= last < |es| && 0 <= last && es[last].key == k && LastOfKey(last)
      requires forall i :: at < i <= last ==> es[i].key == k && es[i].seqno <= sequence
      requires 0 <= at ==> es[at].key != k || es[at].seqno > sequence
      ensures at < last ==> Start(es, k, sequence) == at + 1
      ensures at == last ==> Shown(k).None?
    {
      if at < last {
        StartIs(es, k, sequence, at + 1);
      } else if Shown(k).Some? {
        VisibleHasVersion(es, op, sequence, k);
      }
    }

    /** A seek within a key scanned from its last entry does not move past that entry. */
    lemma SeekStays(last: int, at: int, p: int)
      requires Store() && 0 <= at < last < |es| && 0 <= p < |es| && es[at].key == es[last].key == es[p].key
      requires LastOfKey(last) || FirstOfKey(es, last)
      ensures p <= last && forall i :: p < i <= last ==> es[i].key == es[last].key
    {
      assert es[at].key <= es[last-1].key <= es[last].key;
      assert last + 1 < |es| ==> es[last].key < es[last+1].key;
    }

    /** FindValueForCurrentKey: from the oldest version up, by scanning or, after maxSkip steps, by seeking. */
    method FindValueForCurrentKey() returns (found: bool)
      requires Ok() && IterValid() && es[pos].key == savedKey
      requires LastOfKey(pos) || FirstOfKey(es, pos)
      modifies this`pos, this`savedValue, this`valid
      ensures -1 <= pos <= old(pos) && valid == found
      ensures forall i :: pos < i <= old(pos) ==> es[i].key == savedKey
      ensures old(LastOfKey(pos)) ==> (found <==> Shown(savedKey).Some?)
      ensures old(LastOfKey(pos)) && found ==> Some(savedValue) == Shown(savedKey)
    {
      hide Ordered, SeekIndex;
      var operands, lastNotMergeType, lastKeyEntryType := [], Deletion, Deletion;
      var numSkipped := 0;
      while IterValid() && es[pos].seqno <= sequence && es[pos].key == savedKey
        invariant -1 <= pos <= old(pos) && numSkipped == old(pos) - pos
        invariant forall i :: pos < i <= old(pos) ==> es[i].key == savedKey && es[i].seqno <= sequence
        invariant lastKeyEntryType == if pos == old(pos) then Deletion else es[pos+1].kind
        invariant old(LastOfKey(pos)) ==>
          Chain(es, pos + 1, savedKey) == Versions(if lastNotMergeType == Put then Some(savedValue) else None, operands)
        invariant lastNotMergeType != Merge
        decreases pos
      {
        if numSkipped >= maxSkip {
          ghost var at := pos;
          found := FindValueForCurrentKeyUsingSeek();
          SeekStays(old(pos), at, pos);
          return;
        }
        lastKeyEntryType := es[pos].kind;
        match es[pos].kind {
          case Put =>
            operands := [];
            savedValue := es[pos].value;
            lastNotMergeType := Put;
          case Deletion =>
            operands := [];
            lastNotMergeType := Deletion;
          case Merge =>
            operands := operands + [es[pos].value];
        }
        pos := pos - 1;
        numSkipped := numSkipped + 1;
      }
      if old(LastOfKey(pos)) { ScanStops(old(pos), pos, savedKey); }
      if lastKeyEntryType == Deletion {
        valid := false;
        return false;
      }
      if lastKeyEntryType == Merge {
        savedValue := op(savedKey, if lastNotMergeType == Deletion then None else Some(savedValue), operands);
      }
      valid := true;
      return true;
    }

    /** What a backward scan knows: the position ends a key of b, and no key of b after it is visible. */
    ghost predicate BackScan(b: Bound, at: int)
      requires -1 <= at < |es|
    {
      && (0 <= at ==> LastOfKey(at))
      && (forall i :: 0 <= i <= at ==> Within(b, es[i].key))
      && (forall i :: at < i < |es| && Within(b, es[i].key) ==> Shown(es[i].key).None?)
    }

    /** The scan has left k behind unseen: it stands on the first entry of the key after k. */
    ghost predicate Stray(k: UserKey, at: int)
    {
      1 <= at < |es| && es[at-1].key == k && k < es[at].key && Shown(k).Some?
    }

    lemma BackScanDone(b: Bound)
      requires Store() && BackScan(b, -1)
      ensures forall k :: Within(b, k) ==> Shown(k).None?
    {
      forall k | Within(b, k) ensures Shown(k).None? {
        if Shown(k).Some? { VisibleHasVersion(es, op, sequence, k); }
      }
    }

    /** On the last entry of a visible key: that key is the last one of b. */
    lemma BackScanFound(b: Bound, at: int)
      requires Store() && Downward(b) && 0 <= at < |es| && BackScan(b, at)
      ensures Within(b, es[at].key)
      ensures forall k :: Within(b, k) && es[at].key < k ==> Shown(k).None?
    {
      forall k | Within(b, k) && es[at].key < k ensures Shown(k).None? {
        if Shown(k).Some? { VisibleHasVersion(es, op, sequence, k); }
      }
    }

    /** Leaving an invisible key backwards. */
    lemma BackScanMoves(b: Bound, at: int, at': int)
      requires Store() && -1 <= at' < at < |es| && BackScan(b, at) && Splits(at', es[at].key) && Shown(es[at].key).None?
      ensures BackScan(b, at')
    {
      forall i | at' < i < |es| && Within(b, es[i].key) ensures Shown(es[i].key).None? {
        assert i <= at ==> es[at].key <= es[i].key <= es[at].key;
      }
    }

    /** Leaving the key after k backwards leads to the last entry of k. */
    lemma StrayMoves(k: UserKey, at: int, at': int)
      requires Store() && Stray(k, at) && -1 <= at' < at && Splits(at', es[at].key)
      ensures BackScan(AtMost(k), at')
    {
      assert at' == at - 1;
    }

    /** One turn of PrevInternal's loop. */
    method PrevEntry() returns (found: bool)
      requires Ok() && IterValid() && (LastOfKey(pos) || FirstOfKey(es, pos))
      modifies this`pos, this`savedKey, this`savedValue, this`valid
      ensures savedKey == es[old(pos)].key && pos < old(pos) && Ok() && valid == found
      ensures pos < |es| && Splits(pos, savedKey)
      ensures old(LastOfKey(pos)) ==> (found <==> Shown(savedKey).Some?)
      ensures old(LastOfKey(pos)) && found ==> Some(savedValue) == Shown(savedKey)
    {
      savedKey := es[pos].key;
      found := FindValueForCurrentKey();
      if IterValid() && es[pos].key == savedKey {
        FindPrevUserKey();
      }
    }

    /** PrevInternal: lands on the last visible key of b; from a stray position it cannot get below k. */
    method PrevInternal(ghost b: Bound, ghost stray: Option<UserKey>)
      requires Ok() && !forward && Downward(b)
      requires stray.Some? ==> Stray(stray.value, pos)
      requires stray.None? && pos < |es| ==> BackScan(b, pos)
      modifies this
      ensures !forward
      ensures stray.None? && old(pos) < |es| ==> OnLast(b)
      ensures stray.None? && old(pos) == |es| ==> !valid && Good()
      ensures stray.Some? ==> valid && stray.value <= savedKey
    {
      hide ValueAt, Ordered;
      if !IterValid() {
        valid := false;
        if pos == -1 { BackScanDone(b); }
        return;
      }
      ghost var range := if stray.Some? then AtMost(stray.value) else b;
      ghost var pending := stray.Some?;
      while IterValid()
        invariant Ok() && !forward && pos < |es|
        invariant pending ==> stray.Some? && Stray(stray.value, pos)
        invariant !pending ==> BackScan(range, pos)
        decreases pos
      {
        if !pending { BackScanFound(range, pos); }
        ghost var at := pos;
        var found := PrevEntry();
        if found {
          return;
        }
        if pending { StrayMoves(stray.value, at, pos); } else { BackScanMoves(range, at, pos); }
        pending := false;
      }
      BackScanDone(range);
      valid := false;
    }

    // -------------------------------------------------------------- the iterator interface

    method SeekToFirst()
      requires Ok()
      modifies this
      ensures OnFirst(Everything) && forward
    {
      forward := true;
      savedValue := "";
      pos := 0;
      if IterValid() {
        FindNextUserEntry(false, Everything);
      } else {
        valid := false;
        forall k ensures Shown(k).None? { NothingBelow(Everything, false, 0, 0, k); }
      }
    }

    method SeekToLast()
      requires Ok()
      modifies this
      ensures OnLast(Everything) && !forward
    {
      forward := false;
      savedValue := "";
      pos := |es| - 1;
      PrevInternal(Everything, None);
    }

    method Seek(target: UserKey)
      requires Ok()
      modifies this
      ensures OnFirst(AtLeast(target)) && (valid ==> forward)
    {
      savedKey := target;
      SeekInternal(target, Pack(sequence, TYPE_FOR_SEEK));
      StartFacts(es, target, sequence);
      if IterValid() {
        forward := true;
        savedValue := "";
        FindNextUserEntry(false, AtLeast(target));
      } else {
        valid := false;
        forall k | Within(AtLeast(target), k) ensures Shown(k).None? {
          NothingBelow(AtLeast(target), false, pos, 0, k);
        }
      }
    }

    /** FindNextUserKey: from just before the saved key onto its first entry. */
    method FindNextUserKey()
      requires Ok() && pos < |es| && Splits(pos, savedKey) && Shown(savedKey).Some?
      modifies this`pos
      ensures Ok() && if old(pos) == -1 then pos == -1 else pos == old(pos) + 1
    {
      VisibleHasVersion(es, op, sequence, savedKey);
      if !IterValid() {
        return;
      }
      while IterValid() && es[pos].key != savedKey
        invariant old(pos) <= pos <= old(pos) + 1 && pos < |es|
      {
        pos := pos + 1;
      }
    }

    /** Next moves to the least visible key above the current one, whichever way the cursor was moving. */
    method Next()
      requires Good() && valid
      modifies this
      ensures OnFirst(MoreThan(old(savedKey))) && forward
    {
      hide ValueAt, Ordered;
      if !forward {
        VisibleHasVersion(es, op, sequence, savedKey);
        FindNextUserKey();
        forward := true;
        if !IterValid() {
          pos := 0;
        }
        assert forall i :: 0 <= i < pos ==> es[i].key < savedKey;
      }
      if !IterValid() {
        valid := false;
        forall k | Within(MoreThan(savedKey), k) ensures Shown(k).None? {
          NothingBelow(MoreThan(savedKey), true, pos, savedKey, k);
        }
        return;
      }
      FindNextUserEntry(true, MoreThan(savedKey));
    }

    /** The internal iterator is still where Prev expects it: only a forward merged value can spoil that. */
    ghost predicate Steady()
      reads this
    {
      forward && merged ==> IterValid() && es[pos].key == savedKey
    }

    /**
     Prev moves to the greatest visible key below the current one exactly when the cursor is
     steady, or when the folded key was the last of the store and nothing visible lies below it.
     */
    method Prev()
      requires Good() && valid
      modifies this
      ensures OnLast(LessThan(old(savedKey))) <==>
              old(Steady()) || (old(pos) == |es| && forall k :: k < old(savedKey) ==> Shown(k).None?)
      ensures !old(Steady()) ==> if old(pos) < |es| then valid && old(savedKey) <= savedKey else !valid
      ensures !forward
    {
      hide ValueAt;
      ghost var key := savedKey;
      ghost var steady := Steady();
      ghost var stray := None;
      if forward {
        FindPrevUserKey();
        forward := false;
      }
      if !steady && IterValid() {
        stray := Some(key);
      }
      PrevInternal(LessThan(key), stray);
      if !steady && stray.None? {
        assert forall k :: Within(LessThan(key), k) <==> k < key;
      }
    }

    // -------------------------------------------------------------- whole runs

    /** The index of the first entry whose key is at least k. */
    function From(k: UserKey): (p: nat)
      ensures p <= |es|
    {
      SeekIndex(es, k, Pack(MAX_SEQUENCE, TYPE_FOR_SEEK), 0)
    }

    lemma ListedHere(k: UserKey)
      requires Store() && Shown(k).Some?
      ensures From(k) < |es| && es[From(k)].key == k && FirstOfKey(es, From(k))
      ensures Listing(es, op, sequence, From(k)) == [Pair(k, Shown(k).value)] + Listing(es, op, sequence, From(k) + 1)
    {
      SeekFirstOf(k);
      VisibleHasVersion(es, op, sequence, k);
    }

    /** With no visible key below k, listing from the start is listing from k. */
    lemma ListedFrom(k: UserKey)
      requires Store() && forall x :: x < k ==> Shown(x).None?
      ensures Listing(es, op, sequence, 0) == Listing(es, op, sequence, From(k))
    {
      SeekFirstOf(k);
      forall m | 0 <= m < From(k) ensures ValueAt(es, op, sequence, es[m].key).None? {
        assert Shown(es[m].key).None?;
      }
      ListingSkips(es, op, sequence, 0, From(k));
    }

    lemma SkipsAfter(k: UserKey, j: nat)
      requires Store() && From(k) < j <= |es| && es[From(k)].key == k
      requires forall m :: From(k) < m < j && k < es[m].key ==> Shown(es[m].key).None?
      ensures Listing(es, op, sequence, From(k) + 1) == Listing(es, op, sequence, j)
    {
      var p := From(k);
      forall m | p < m < j && FirstOfKey(es, m) ensures ValueAt(es, op, sequence, es[m].key).None? {
        assert es[p].key <= es[m-1].key < es[m].key;
        assert Shown(es[m].key).None?;
      }
      ListingSkips(es, op, sequence, p + 1, j);
    }

    /** With no visible key between k and its successor, listing past k is listing from the successor. */
    lemma ListedGap(k: UserKey, next: UserKey)
      requires Store() && k < next && Shown(k).Some? && forall x :: k < x < next ==> Shown(x).None?
      ensures From(k) < From(next)
      ensures Listing(es, op, sequence, From(k) + 1) == Listing(es, op, sequence, From(next))
    {
      assert From(k) < |es| && es[From(k)].key == k by { ListedHere(k); }
      SeekFirstOf(next);
      SkipsAfter(k, From(next));
    }

    lemma ListedEnd(k: UserKey)
      requires Store() && Shown(k).Some? && forall x :: k < x ==> Shown(x).None?
      ensures Listing(es, op, sequence, From(k) + 1) == []
    {
      assert From(k) < |es| && es[From(k)].key == k by { ListedHere(k); }
      SkipsAfter(k, |es|);
    }

    lemma ListedNothing()
      requires Store() && forall x :: Shown(x).None?
      ensures Listing(es, op, sequence, 0) == []
    {
      forall m | 0 <= m < |es| ensures ValueAt(es, op, sequence, es[m].key).None? {
        assert Shown(es[m].key).None?;
      }
      ListingSkips(es, op, sequence, 0, |es|);
    }

    /** What is still to be listed from the cursor on. */
    ghost function Rest(): (r: seq<Pair>)
      reads this
    {
      if valid then Listing(es, op, sequence, From(savedKey)) else []
    }

    lemma RestAtFirst()
      requires OnFirst(Everything)
      ensures Rest() == Listing(es, op, sequence, 0)
    {
      assert forall k :: Within(Everything, k);
      if valid { ListedFrom(savedKey); } else { ListedNothing(); }
    }

    lemma RestAtNext(k: UserKey)
      requires OnFirst(MoreThan(k)) && Shown(k).Some?
      ensures Rest() == Listing(es, op, sequence, From(k) + 1)
      ensures valid ==> From(k) < From(savedKey)
    {
      hide ValueAt, Ordered, Listing, SeekIndex;
      assert forall x :: Within(MoreThan(k), x) <==> k < x;
      if valid { ListedGap(k, savedKey); } else { ListedEnd(k); }
    }

    /** Reading the current pair and moving on. */
    method TakeNext() returns (p: Pair)
      requires Good() && valid
      modifies this
      ensures Good() && old(Rest()) == [p] + Rest()
      ensures valid ==> From(old(savedKey)) < From(savedKey)
    {
      hide ValueAt, Ordered, Listing, SeekIndex;
      ListedHere(savedKey);
      p := Pair(savedKey, Value());
      ghost var k := savedKey;
      Next();
      RestAtNext(k);
    }

    /** SeekToFirst followed by Next until invalid lists the visible map in order. */
    method ScanForward() returns (out: seq<Pair>)
      requires Ok()
      modifies this
      ensures out == Listing(es, op, sequence, 0)
    {
      hide ValueAt, Ordered, Listing, SeekIndex, FoldEnd;
      out := [];
      SeekToFirst();
      RestAtFirst();
      while valid
        invariant Good()
        invariant Listing(es, op, sequence, 0) == out + Rest()
        decreases valid, |es| - From(savedKey)
      {
        var p := TakeNext();
        out := out + [p];
      }
    }

    /** What remains to be listed once the cursor, moving backward, has passed its key. */
    ghost function Passed(): (r: seq<Pair>)
      reads this
      requires valid ==> From(savedKey) < |es|
    {
      Listing(es, op, sequence, if valid then From(savedKey) + 1 else 0)
    }

    lemma PassedAtLast()
      requires OnLast(Everything)
      ensures valid ==> From(savedKey) < |es|
      ensures Passed() == []
    {
      hide ValueAt, Ordered, Listing, SeekIndex;
      assert forall k :: Within(Everything, k);
      if valid { ListedHere(savedKey); ListedEnd(savedKey); } else { ListedNothing(); }
    }

    lemma PassedAtPrev(k: UserKey)
      requires OnLast(LessThan(k)) && Shown(k).Some?
      ensures valid ==> From(savedKey) < From(k) <= |es|
      ensures Passed() == Listing(es, op, sequence, From(k))
    {
      hide ValueAt, Ordered, Listing, SeekIndex;
      assert forall x :: Within(LessThan(k), x) <==> x < k;
      if valid { ListedHere(savedKey); ListedGap(savedKey, k); } else { ListedFrom(k); }
    }

    method TakePrev() returns (p: Pair)
      requires Good() && valid && !forward && From(savedKey) < |es|
      modifies this
      ensures Good() && !forward && (valid ==> From(savedKey) < From(old(savedKey)) <= |es|)
      ensures Passed() == [p] + old(Passed())
    {
      hide ValueAt, Ordered, Listing, SeekIndex;
      ListedHere(savedKey);
      p := Pair(savedKey, Value());
      ghost var k := savedKey;
      Prev();
      PassedAtPrev(k);
    }

    /** SeekToLast followed by Prev until invalid lists the visible map in the opposite order. */
    method ScanBackward() returns (out: seq<Pair>)
      requires Ok()
      modifies this
      ensures out == Reverse(Listing(es, op, sequence, 0))
    {
      hide ValueAt, Ordered, Listing, SeekIndex, FoldEnd;
      out := [];
      SeekToLast();
      PassedAtLast();
      while valid
        invariant Good() && !forward && (valid ==> From(savedKey) < |es|)
        invariant out == Reverse(Passed())
        decreases valid, From(savedKey)
      {
        var p := TakePrev();
        out := out + [p];
      }
    }
  }

  /**
   The store on which Prev from a merged value goes wrong: a folded key with a key after it.
   Key 1 is visible below key 2, yet the cursor does not move to it.
   */
  method PrevAfterMerge(op: FullMerge) returns (it: DBIter, landed: UserKey)
    ensures it.Shown(1) == Some("a") && landed >= 2
  {
    var es := [Entry(1, 1, Put, "a"), Entry(2, 2, Merge, "b"), Entry(3, 3, Put, "c")];
    it := new DBIter(es, op, 9, 1);
    StartIs(es, 1, 9, 0);
    StartIs(es, 2, 9, 1);
    it.Seek(2);
    assert it.Shown(2).Some?;
    assert it.valid && it.savedKey == 2 && it.pos == 2;
    it.Prev();
    landed := it.savedKey;
  }
}

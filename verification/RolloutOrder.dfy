/** The order in which sibling rollouts are considered (risk_aware_opsd/rollout_evidence.py):
    by the session ordinal inside the rollout id, then by the id itself. */
module RolloutOrder {
  // Which characters are decimal digits (and their values), and which are whitespace.
  datatype Text = Text(digits: map<char, nat>, spaces: set<char>)

  // Position of the last underscore, or -1.
  function LastUnderscore(s: string): (i: int)
    ensures -1 <= i < |s| && (i >= 0 ==> s[i] == '_') && forall j :: i < j < |s| ==> s[j] != '_'
  {
    if s == [] then -1
    else if s[|s| - 1] == '_' then |s| - 1
    else LastUnderscore(s[..|s| - 1])
  }

  predicate IsDecimal(text: Text, s: string) {
    s != [] && Digits(text, s)
  }

  predicate Digits(text: Text, s: string) {
    forall i :: 0 <= i < |s| ==> s[i] in text.digits
  }

  function Value(text: Text, s: string): nat
    requires Digits(text, s)
  {
    if s == [] then 0 else 10 * Value(text, s[..|s| - 1]) + text.digits[s[|s| - 1]]
  }

  // rsplit("_", 2): the middle of three parts when it is a number, else the last part.
  function OrdinalPart(text: Text, id: string): string {
    var last := LastUnderscore(id);
    if last < 0 then id
    else
      var before := LastUnderscore(id[..last]);
      if before >= 0 && IsDecimal(text, id[before + 1..last]) then id[before + 1..last] else id[last + 1..]
  }

  function Ordinal(text: Text, id: string): nat {
    var part := OrdinalPart(text, id);
    if IsDecimal(text, part) then Value(text, part) else 0
  }

  predicate Less(a: string, b: string) {
    b != [] && (a == [] || a[0] < b[0] || (a[0] == b[0] && Less(a[1..], b[1..])))
  }

  predicate Earlier(text: Text, a: string, b: string) {
    Ordinal(text, a) < Ordinal(text, b) || (Ordinal(text, a) == Ordinal(text, b) && Less(a, b))
  }

  lemma {:induction false} LessTotal(a: string, b: string)
    ensures a == b || Less(a, b) || Less(b, a)
    ensures !(Less(a, b) && Less(b, a))
    decreases |a| + |b|
  {
    if a != [] && b != [] && a[0] == b[0] {
      LessTotal(a[1..], b[1..]);
      assert a == [a[0]] + a[1..] && b == [b[0]] + b[1..];
    }
  }

  lemma {:induction false} LessTransitive(a: string, b: string, c: string)
    requires Less(a, b) && Less(b, c)
    ensures Less(a, c)
    decreases |a|
  {
    if a != [] && a[0] == b[0] == c[0] {
      LessTransitive(a[1..], b[1..], c[1..]);
    }
  }

  /** On distinct ids the order is a strict total order, so sorting by it leaves nothing
      to the position of a rollout in the batch. */
  lemma EarlierIsStrictTotal(text: Text, a: string, b: string, c: string)
    ensures !Earlier(text, a, a)
    ensures a != b ==> (Earlier(text, a, b) <==> !Earlier(text, b, a))
    ensures Earlier(text, a, b) && Earlier(text, b, c) ==> Earlier(text, a, c)
  {
    hide Ordinal;
    LessTotal(a, b);
    LessTotal(a, a);
    if Less(a, b) && Less(b, c) {
      LessTransitive(a, b, c);
    }
  }

  // ------------------------------------------------------------- what the order means

  function Power10(n: nat): nat {
    if n == 0 then 1 else 10 * Power10(n - 1)
  }

  /** Decimal digits count by position: those in front weigh a power of ten more for every digit
      behind them. */
  lemma {:induction false} ValueOfConcat(text: Text, s: string, t: string)
    requires Digits(text, s) && Digits(text, t)
    ensures Digits(text, s + t) && Value(text, s + t) == Value(text, s) * Power10(|t|) + Value(text, t)
    decreases |t|
  {
    if t == [] {
      assert s + t == s;
    } else {
      var n := |t| - 1;
      ValueOfConcat(text, s, t[..n]);
      ValueSnoc(text, s + t[..n], t[n]);
      ValueSnoc(text, t[..n], t[n]);
      assert (s + t[..n]) + [t[n]] == s + t && t[..n] + [t[n]] == t;
      assert Power10(|t|) == 10 * Power10(n);
      hide Value, Power10, Digits;
      TenTimes(Value(text, s), Power10(n), Value(text, t[..n]));
    }
  }

  lemma ValueSnoc(text: Text, s: string, c: char)
    requires Digits(text, s) && c in text.digits
    ensures Digits(text, s + [c]) && Value(text, s + [c]) == 10 * Value(text, s) + text.digits[c]
  {
    assert (s + [c])[..|s|] == s;
  }

  lemma TenTimes(a: nat, p: nat, b: nat)
    ensures 10 * (a * p + b) == a * (10 * p) + 10 * b
  {
  }

  lemma ValueOfDigit(text: Text, c: char)
    requires c in text.digits
    ensures Value(text, [c]) == text.digits[c] && Value(text, "") == 0
  {
  }

  /** Less is the lexicographic order: a proper prefix comes first, and otherwise the first
      character that differs decides. */
  lemma {:induction false} LessIsLexicographic(a: string, b: string)
    ensures Less(a, b) <==>
      exists k :: 0 <= k <= |a| && k < |b| && a[..k] == b[..k] && (k == |a| || a[k] < b[k])
    decreases |a|
  {
    if a != [] && b != [] && a[0] == b[0] {
      LessIsLexicographic(a[1..], b[1..]);
      if Less(a, b) {
        var k :| 0 <= k <= |a[1..]| && k < |b[1..]| && a[1..][..k] == b[1..][..k]
          && (k == |a[1..]| || a[1..][k] < b[1..][k]);
        assert a[..k + 1] == [a[0]] + a[1..][..k] && b[..k + 1] == [b[0]] + b[1..][..k];
      }
      if k :| 0 <= k <= |a| && k < |b| && a[..k] == b[..k] && (k == |a| || a[k] < b[k]) {
        assert k > 0;
        assert a[1..][..k - 1] == a[..k][1..] && b[1..][..k - 1] == b[..k][1..];
      }
    } else if Less(a, b) {
      assert a[..0] == b[..0];
    } else {
      HeadsMatch(a, b);
    }
  }

  lemma HeadsMatch(a: string, b: string)
    ensures forall k :: 0 < k <= |a| && k <= |b| && a[..k] == b[..k] ==> a[0] == b[0]
  {
    forall k | 0 < k <= |a| && k <= |b| && a[..k] == b[..k] ensures a[0] == b[0] {
      assert a[..k][0] == b[..k][0];
    }
  }

  /** An id without an underscore is its own ordinal part. */
  lemma OrdinalOfPlainId(text: Text, id: string)
    requires '_' !in id
    ensures Ordinal(text, id) == if id != "" && Digits(text, id) then Value(text, id) else 0
  {
  }

  /** With one underscore the last part is. */
  lemma OrdinalOfPair(text: Text, uid: string, session: string)
    requires '_' !in uid && '_' !in session
    ensures Ordinal(text, uid + "_" + session) ==
      if session != "" && Digits(text, session) then Value(text, session) else 0
  {
    var id := uid + "_" + session;
    assert id[|uid|] == '_' && forall j :: |uid| < j < |id| ==> id[j] == session[j - |uid| - 1];
    assert LastUnderscore(id) == |uid|;
    assert id[..|uid|] == uid && id[|uid| + 1..] == session;
    assert LastUnderscore(uid) < 0;
    hide IsDecimal, Value, LastUnderscore;
  }

  /** With more, the middle one of the last three when it is a number, and else the last. */
  lemma OrdinalOfTriple(text: Text, uid: string, middle: string, last: string)
    requires '_' !in middle && '_' !in last
    ensures Ordinal(text, uid + "_" + middle + "_" + last) ==
      if middle != "" && Digits(text, middle) then Value(text, middle)
      else if last != "" && Digits(text, last) then Value(text, last)
      else 0
  {
    var id := uid + "_" + middle + "_" + last;
    var at := |uid| + 1 + |middle|;
    assert id[at] == '_' && forall j :: at < j < |id| ==> id[j] == last[j - at - 1];
    assert LastUnderscore(id) == at;
    var head := id[..at];
    assert head == uid + "_" + middle;
    assert head[|uid|] == '_' && forall j :: |uid| < j < |head| ==> head[j] == middle[j - |uid| - 1];
    assert LastUnderscore(head) == |uid|;
    assert id[|uid| + 1..at] == middle && id[at + 1..] == last;
  }

  /** So sessions are taken in numerical order, whatever the uids and turns; ids of one session go
      by the whole id. */
  lemma SessionsSortNumerically(text: Text, u: string, s: string, t: string, u': string, s': string, t': string)
    requires s != "" && Digits(text, s) && '_' !in s && '_' !in t
    requires s' != "" && Digits(text, s') && '_' !in s' && '_' !in t'
    ensures var a, b := u + "_" + s + "_" + t, u' + "_" + s' + "_" + t';
      Earlier(text, a, b) <==>
        Value(text, s) < Value(text, s') || (Value(text, s) == Value(text, s') && Less(a, b))
  {
    OrdinalOfTriple(text, u, s, t);
    OrdinalOfTriple(text, u', s', t');
  }

  /** "uid_session_turn" is ordered by session. */
  lemma OrdinalOfTransferQueueId(text: Text, uid: string, session: string, turn: string)
    requires session != "" && Digits(text, session) && '_' !in session && '_' !in turn
    ensures Ordinal(text, uid + "_" + session + "_" + turn) == Value(text, session)
  {
    OrdinalOfTriple(text, uid, session, turn);
  }
}

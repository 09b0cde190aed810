// The display names of the history records when the debug names are not
// compiled in: decimal ids, "src->dst" for a transition and "Enter ",
// "Exit " or nothing before "layer:state" for an animator event.
module HistoryNames {
  import opened WaybackHistory

  predicate IsDigit(c: char)
  {
    '0' <= c <= '9'
  }

  function DigitChar(d: int): (c: char)
    requires 0 <= d < 10
    ensures IsDigit(c) && c as int - '0' as int == d
  {
    ('0' as int + d) as char
  }

  /** The decimal digits of n, most significant first, with no leading zero. */
  function Digits(n: nat): (s: string)
    ensures |s| > 0
    ensures forall i :: 0 <= i < |s| ==> IsDigit(s[i])
    decreases n
  {
    if n < 10 then [DigitChar(n)] else Digits(n / 10) + [DigitChar(n % 10)]
  }

  /** The number a string of decimal digits spells. */
  function DigitsValue(s: string): int
  {
    if s == [] then 0 else DigitsValue(s[..|s| - 1]) * 10 + (s[|s| - 1] as int - '0' as int)
  }

  lemma {:induction false} DigitsRoundTrip(n: nat)
    ensures DigitsValue(Digits(n)) == n
  {
    if n >= 10 {
      DigitsRoundTrip(n / 10);
      var s := Digits(n);
      assert s[..|s| - 1] == Digits(n / 10);
    }
  }

  /** int.ToString(): a minus sign before the digits of a negative number. */
  function Decimal(i: int): (s: string)
    ensures |s| > 0 && (s[0] == '-' <==> i < 0)
    ensures IsDigit(s[0]) || s[0] == '-'
    ensures forall j :: 0 < j < |s| ==> IsDigit(s[j])
  {
    if i < 0 then "-" + Digits(-i) else Digits(i)
  }

  /** Distinct numbers print differently. */
  lemma DecimalInjective(a: int, b: int)
    requires Decimal(a) == Decimal(b)
    ensures a == b
  {
    DigitsRoundTrip(if a < 0 then -a else a);
    DigitsRoundTrip(if b < 0 then -b else b);
    if a < 0 {
      assert Decimal(a)[1..] == Digits(-a);
      assert Decimal(b)[1..] == Digits(-b);
    }
  }

  /** Splitting at the first occurrence of a separator recovers both parts. */
  lemma SplitAt(a: string, sep: char, b: string, a': string, b': string)
    requires a + [sep] + b == a' + [sep] + b'
    requires forall i :: 0 <= i < |a| ==> a[i] != sep
    requires forall i :: 0 <= i < |a'| ==> a'[i] != sep
    ensures a == a' && b == b'
  {
    var s := a + [sep] + b;
    assert s[|a|] == sep && s[|a'|] == sep;
    assert forall i :: 0 <= i < |a| ==> s[i] == a[i];
    assert forall i :: 0 <= i < |a'| ==> s[i] == a'[i];
    assert |a| == |a'|;
    assert a == s[..|a|] && a' == s[..|a'|];
    assert b == s[|a| + 1..] && b' == s[|a'| + 1..];
  }

  /** The non-debug GetName of a state history: its decimal state id. */
  function StateName(h: AnimatorControllerStateHistoryData): (s: string)
    ensures |s| > 0 && (s[0] == '-' <==> h.stateId < 0)
    ensures forall j :: 0 <= j < |s| ==> IsDigit(s[j]) || (j == 0 && s[j] == '-')
  {
    Decimal(h.stateId)
  }

  lemma StateNameInjective(a: AnimatorControllerStateHistoryData, b: AnimatorControllerStateHistoryData)
    ensures StateName(a) == StateName(b) <==> a.stateId == b.stateId
  {
    if StateName(a) == StateName(b) {
      DecimalInjective(a.stateId, b.stateId);
    }
  }

  /** The non-debug GetName of an animation-event history: its decimal name hash. */
  function AnimationEventName(h: AnimationEventHistoryData): (s: string)
    ensures |s| > 0 && forall j :: 0 <= j < |s| ==> IsDigit(s[j])
  {
    Decimal(h.nameHash)
  }

  /** Two animation-event records share a name exactly when they share a name hash. */
  lemma AnimationEventNameInjective(a: AnimationEventHistoryData, b: AnimationEventHistoryData)
    ensures AnimationEventName(a) == AnimationEventName(b) <==> a.nameHash == b.nameHash
  {
    if AnimationEventName(a) == AnimationEventName(b) {
      DecimalInjective(a.nameHash, b.nameHash);
    }
  }

  /** The non-debug GetStringParam of an animation-event history: its decimal string-parameter hash. */
  function AnimationEventStringParam(h: AnimationEventHistoryData): (s: string)
    ensures |s| > 0 && forall j :: 0 <= j < |s| ==> IsDigit(s[j])
  {
    Decimal(h.stringParamHash)
  }

  /** Two animation-event records show the same string parameter exactly when they share its hash. */
  lemma AnimationEventStringParamInjective(a: AnimationEventHistoryData, b: AnimationEventHistoryData)
    ensures AnimationEventStringParam(a) == AnimationEventStringParam(b) <==> a.stringParamHash == b.stringParamHash
  {
    if AnimationEventStringParam(a) == AnimationEventStringParam(b) {
      DecimalInjective(a.stringParamHash, b.stringParamHash);
    }
  }

  /** The non-debug GetName of a transition history: "{srcStateId}->{dstStateId}". */
  function TransitionName(t: AnimatorControllerTransitionHistoryData): (s: string)
    ensures var i := |Decimal(t.srcStateId)| + 1;
      i < |s| && s[i - 1] == '-' && s[i] == '>' && forall j :: 0 <= j < |s| && s[j] == '>' ==> j == i
  {
    Decimal(t.srcStateId) + "->" + Decimal(t.dstStateId)
  }

  /** A transition's name determines both its states. */
  lemma TransitionNameInjective(t: AnimatorControllerTransitionHistoryData, u: AnimatorControllerTransitionHistoryData)
    ensures TransitionName(t) == TransitionName(u) <==> t.srcStateId == u.srcStateId && t.dstStateId == u.dstStateId
  {
    if TransitionName(t) == TransitionName(u) {
      var a, b := Decimal(t.srcStateId) + "-", Decimal(t.dstStateId);
      var a', b' := Decimal(u.srcStateId) + "-", Decimal(u.dstStateId);
      assert TransitionName(t) == a + ['>'] + b;
      assert TransitionName(u) == a' + ['>'] + b';
      SplitAt(a, '>', b, a', b');
      assert Decimal(t.srcStateId) == a[..|a| - 1] && Decimal(u.srcStateId) == a'[..|a'| - 1];
      DecimalInjective(t.srcStateId, u.srcStateId);
      DecimalInjective(t.dstStateId, u.dstStateId);
    }
  }

  /** The prefix the non-debug GetName of an animator event starts with. */
  function EventPrefix(t: EventType): (p: string)
  {
    match t
    case StateEnter => "Enter "
    case StateExit => "Exit "
    case StateUpdate => ""
  }

  /** The non-debug GetName of an animator event: the prefix, then "{layerId}:{stateId}". */
  function EventName(h: AnimatorEventHistoryData): (s: string)
    ensures |s| >= 2 && KindOf(s) == h.eventType
  {
    var rest := Decimal(h.layerId) + ":" + Decimal(h.stateId);
    PrefixKind(h.eventType, rest);
    assert EventPrefix(h.eventType) + Decimal(h.layerId) + ":" + Decimal(h.stateId) == EventPrefix(h.eventType) + rest;
    EventPrefix(h.eventType) + rest
  }

  /** The event type a name's first two characters tell apart. */
  function KindOf(s: string): EventType
    requires |s| >= 2
  {
    if s[0] == 'E' && s[1] == 'n' then StateEnter else if s[0] == 'E' then StateExit else StateUpdate
  }

  lemma PrefixKind(t: EventType, rest: string)
    requires |rest| > 0 && (IsDigit(rest[0]) || rest[0] == '-')
    requires |rest| >= 2 || t != StateUpdate
    ensures KindOf(EventPrefix(t) + rest) == t
  {
  }

  /** A prefixed string determines its prefix and the rest. */
  lemma PrefixInjective(t: EventType, r: string, t': EventType, r': string)
    requires EventPrefix(t) + r == EventPrefix(t') + r'
    requires |r| >= 2 && (IsDigit(r[0]) || r[0] == '-')
    requires |r'| >= 2 && (IsDigit(r'[0]) || r'[0] == '-')
    ensures t == t' && r == r'
  {
    PrefixKind(t, r);
    PrefixKind(t', r');
    var n := |EventPrefix(t)|;
    assert r == (EventPrefix(t) + r)[n..];
  }

  /** An animator event's name determines its type, layer and state. */
  lemma EventNameInjective(h: AnimatorEventHistoryData, g: AnimatorEventHistoryData)
    ensures EventName(h) == EventName(g) <==>
      h.eventType == g.eventType && h.layerId == g.layerId && h.stateId == g.stateId
  {
    if EventName(h) == EventName(g) {
      var b, b' := Decimal(h.stateId), Decimal(g.stateId);
      var r, r' := Decimal(h.layerId) + ":" + b, Decimal(g.layerId) + ":" + b';
      assert EventName(h) == EventPrefix(h.eventType) + r;
      assert EventName(g) == EventPrefix(g.eventType) + r';
      PrefixInjective(h.eventType, r, g.eventType, r');
      assert r == Decimal(h.layerId) + [':'] + b && r' == Decimal(g.layerId) + [':'] + b';
      SplitAt(Decimal(h.layerId), ':', b, Decimal(g.layerId), b');
      DecimalInjective(h.layerId, g.layerId);
      DecimalInjective(h.stateId, g.stateId);
    }
  }
}

/** How the message splitter decides where the next chunk ends. */
module SplitPlan {

  /** The white space that trimming removes. */
  predicate IsSpace(c: char) {
    c in {'\t', '\n', '\U{0B}', '\U{0C}', '\r', ' ', '\U{85}', '\U{A0}', '\U{1680}', '\U{2028}', '\U{2029}', '\U{202F}',
          '\U{205F}', '\U{3000}'}
    || '\U{2000}' <= c <= '\U{200A}'
  }

  /** The characters skipped after a cut and trimmed before an injected closing fence. */
  predicate IsGap(c: char)
    ensures IsGap(c) ==> IsSpace(c)
  {
    c == ' ' || c == '\t' || c == '\n' || c == '\r'
  }

  const NEWLINE: set<char> := {'\n'}
  const BLANK: set<char> := {' ', '\t'}
  const FENCE := "```"
  const CLOSER := "\n```"

  predicate Fence(r: string, i: int, end: int)
    requires end <= |r|
  {
    0 <= i && i + 2 < end && r[i] == '`' && r[i + 1] == '`' && r[i + 2] == '`'
  }

  // ----- range searches --------------------------------------------------------------------

  /** The last index in [lo, hi) holding one of cs, or -1. */
  function LastIn(r: string, lo: int, hi: int, cs: set<char>): (i: int)
    requires 0 <= lo && hi <= |r|
    ensures i == -1 || (lo <= i < hi && r[i] in cs)
    ensures forall k :: lo <= k < hi && i < k ==> r[k] !in cs
    decreases hi - lo
  {
    if hi <= lo then -1
    else if r[hi - 1] in cs then hi - 1
    else LastIn(r, lo, hi - 1, cs)
  }

  /** The search helpers look back over at most `window` runes and answer start - 1 for "not found". */
  function FindLast(r: string, start: int, end: int, window: nat, cs: set<char>): (i: int)
    requires 0 <= start && end <= |r|
    ensures i == start - 1 || (start <= i < end && end - window <= i && r[i] in cs)
    ensures forall k :: start <= k < end && end - window <= k && i < k ==> r[k] !in cs
  {
    var i := LastIn(r, if end - window > start then end - window else start, end, cs);
    if i < 0 then start - 1 else i
  }

  /** The first index at or after `from` holding a newline, or -1. */
  function NewlineFrom(r: string, from: int): (i: int)
    requires 0 <= from
    ensures i == -1 || (from <= i < |r| && r[i] == '\n')
    ensures forall k :: from <= k < |r| && (i == -1 || k < i) ==> r[k] != '\n'
    decreases |r| - from
  {
    if from >= |r| then -1 else if r[from] == '\n' then from else NewlineFrom(r, from + 1)
  }

  /** The index just after the first fence that starts at or after `from`, or -1. */
  function NextClosing(r: string, from: int): (i: int)
    requires 0 <= from
    ensures i == -1 || (from + 3 <= i <= |r| && Fence(r, i - 3, |r|))
    ensures forall k :: from <= k && (i == -1 || k < i - 3) ==> !Fence(r, k, |r|)
    decreases |r| - from
  {
    if from >= |r| then -1 else if Fence(r, from, |r|) then from + 3 else NextClosing(r, from + 1)
  }

  /** Scans fences from i; `open` and `last` are the scan's state. */
  function UnclosedFrom(r: string, i: int, end: int, open: bool, last: int): (u: int)
    requires 0 <= i && end <= |r|
    requires open ==> Fence(r, last, end) && last < i
    ensures u == -1 || Fence(r, u, end)
    ensures u >= 0 ==> u >= i || (open && u == last)
    decreases end - i
  {
    if i >= end then (if open then last else -1)
    else if Fence(r, i, end) then UnclosedFrom(r, i + 3, end, !open, if open then last else i)
    else UnclosedFrom(r, i + 1, end, open, last)
  }

  /** The opening fence in [start, end) that is still open at `end`, or -1. */
  function Unclosed(r: string, start: int, end: int): (u: int)
    requires 0 <= start && end <= |r|
    ensures u == -1 || (start <= u && Fence(r, u, end))
  {
    UnclosedFrom(r, start, end, false, -1)
  }

  // ----- trimming --------------------------------------------------------------------------

  function LeadingSpace(s: string): (n: nat)
    ensures n <= |s|
    ensures forall k :: 0 <= k < n ==> IsSpace(s[k])
    ensures n < |s| ==> !IsSpace(s[n])
  {
    if s == "" || !IsSpace(s[0]) then 0 else 1 + LeadingSpace(s[1..])
  }

  /** The length of s without its trailing white space. */
  function TrimmedEnd(s: string): (n: nat)
    ensures n <= |s|
    ensures forall k :: n <= k < |s| ==> IsSpace(s[k])
    ensures n > 0 ==> !IsSpace(s[n - 1])
  {
    if s == "" || !IsSpace(s[|s| - 1]) then |s| else TrimmedEnd(s[..|s| - 1])
  }

  function TrimmedGap(s: string): (n: nat)
    ensures n <= |s|
    ensures forall k :: n <= k < |s| ==> IsGap(s[k])
    ensures n > 0 ==> !IsGap(s[n - 1])
  {
    if s == "" || !IsGap(s[|s| - 1]) then |s| else TrimmedGap(s[..|s| - 1])
  }

  /** The slice of s that trimming both ends keeps. */
  function TrimRange(s: string): (lohi: (nat, nat))
    ensures lohi.0 <= lohi.1 <= |s|
  {
    var lo, hi := LeadingSpace(s), TrimmedEnd(s);
    if lo <= hi then (lo, hi) else (lo, lo)
  }

  function TrimSpace(s: string): string {
    s[TrimRange(s).0..TrimRange(s).1]
  }

  // ----- the decision ----------------------------------------------------------------------

  function Max(a: int, b: int): int { if a > b then a else b }
  function Min(a: int, b: int): int { if a < b then a else b }

  function CodeBlockBuffer(maxLen: nat): nat {
    Min(Max(maxLen / 10, 50), maxLen / 2)
  }

  function EffectiveLimit(maxLen: nat): nat {
    Max(maxLen - CodeBlockBuffer(maxLen), maxLen / 2)
  }

  /** The line that opens a code block, trimmed; a bare fence when no newline follows. */
  function Header(r: string, u: int): string
    requires Fence(r, u, |r|)
  {
    var e := NewlineFrom(r, u);
    if e == -1 then TrimSpace(r[u..u + 3]) else TrimSpace(r[u..e])
  }

  function HeaderEnd(r: string, u: int): int
    requires Fence(r, u, |r|)
  {
    var e := NewlineFrom(r, u);
    if e == -1 then u + |Header(r, u)| else e
  }

  /** What one round of the splitter does: emit everything left; emit up to a cut; or emit up to a cut, close
      the code block there and re-open it in front of the rest. */
  datatype Action = Finish | Cut(at: int) | Reopen(to: int, header: string)

  function NaturalEnd(r: string, start: nat, maxLen: nat): (e: int)
    requires maxLen > 0 && start + maxLen < |r|
    ensures start < e <= start + EffectiveLimit(maxLen) <= start + maxLen
  {
    var end := start + EffectiveLimit(maxLen);
    var nl := FindLast(r, start, end, 200, NEWLINE);
    if nl > start then nl
    else
      var sp := FindLast(r, start, end, 100, BLANK);
      if sp > start then sp else end
  }

  function InnerEnd(r: string, start: nat, maxLen: nat, headerEnd: int): (e: int)
    requires start + maxLen < |r| && 5 <= maxLen && start <= headerEnd
    ensures start <= e <= start + maxLen - 5
  {
    var innerLimit := start + maxLen - 5;
    var better := FindLast(r, start, innerLimit, 200, NEWLINE);
    if better > headerEnd then better else innerLimit
  }

  function EndBefore(r: string, start: nat, u: int): (e: int)
    requires start <= u <= |r|
    ensures e <= u
  {
    var nl := FindLast(r, start, u, 200, NEWLINE);
    if nl > start then nl else FindLast(r, start, u, 100, BLANK)
  }

  /** The decision when the chunk would end inside a code block opened at u that does not close in time. */
  function PlanInside(r: string, start: nat, maxLen: nat, msgEnd: int, u: int): (a: Action)
    requires start + maxLen < |r| && 5 <= maxLen && start <= u && Fence(r, u, |r|)
    ensures a.Reopen? ==> a.header == Header(r, u) && start <= a.to <= start + maxLen - 5
    ensures a.Cut? ==> start < a.at <= u
    ensures !a.Finish?
  {
    var header, headerEnd := Header(r, u), HeaderEnd(r, u);
    if msgEnd > headerEnd + 20 then Reopen(InnerEnd(r, start, maxLen, headerEnd), header)
    else
      var newEnd := EndBefore(r, start, u);
      if newEnd > start then Cut(newEnd)
      else if u - start > 20 then Cut(u)
      else Reopen(start + maxLen - 5, header)
  }

  function Plan(r: string, start: nat, maxLen: nat): Action
    requires maxLen > 0 && start < |r|
  {
    if |r| - start <= maxLen then Finish
    else
      var msgEnd := NaturalEnd(r, start, maxLen);
      var u := Unclosed(r, start, msgEnd);
      if u < 0 then Cut(msgEnd)
      else
        var closing := NextClosing(r, msgEnd);
        if closing > 0 && closing - start <= maxLen then Cut(closing)
        else PlanInside(r, start, maxLen, msgEnd, u)
  }

  /** Every decision stays inside the buffer and inside the length limit, for every limit and every text:
      in particular no slice bound is ever crossed. */
  lemma PlanInRange(r: string, start: nat, maxLen: nat)
    requires maxLen > 0 && start < |r|
    ensures Plan(r, start, maxLen).Cut? ==>
              start < Plan(r, start, maxLen).at <= start + maxLen && Plan(r, start, maxLen).at <= |r|
    ensures Plan(r, start, maxLen).Reopen? ==>
              start <= Plan(r, start, maxLen).to <= start + maxLen - 5 && Plan(r, start, maxLen).to <= |r|
  {
  }
}

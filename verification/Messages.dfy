/** Conversation messages as the history code sees them: a role, the ids of the tool calls an
    assistant message makes, the id a tool message answers, and a payload nobody inspects. */
module Messages {

  /** Roles are compared in two ways: the sanitizer compares the exact text, the turn-boundary
      code ignores case and surrounding blanks.  `LooseUser` is a spelling of "user" that only
      the second comparison recognises. */
  datatype Role =
    | System
    | User
    | LooseUser(spelling: string)
    | Assistant
    | Tool
    | OtherRole(name: string)

  datatype Message = Message(role: Role, calls: seq<string>, callId: string, payload: string)

  predicate IsUserRole(role: Role) {
    role.User? || role.LooseUser?
  }

  predicate CallsTools(m: Message) {
    m.role.Assistant? && |m.calls| > 0
  }

  /** Messages that neither make nor answer a tool call and are not system messages. */
  predicate Plain(m: Message) {
    !m.role.System? && !m.role.Tool? && !CallsTools(m)
  }

  /** The number of tool messages at the front of s. */
  function RunLen(s: seq<Message>): (n: nat)
    ensures n <= |s|
    ensures forall k :: 0 <= k < n ==> s[k].role.Tool?
    ensures n < |s| ==> !s[n].role.Tool?
  {
    if s == [] || !s[0].role.Tool? then 0 else 1 + RunLen(s[1..])
  }

  predicate AnsweredIn(id: string, run: seq<Message>) {
    exists k :: 0 <= k < |run| && run[k].callId == id
  }

  /** Every call of m is answered by the tool messages that directly follow it in `rest`. */
  predicate Answered(m: Message, rest: seq<Message>) {
    forall c :: c in m.calls ==> AnsweredIn(c, rest[..RunLen(rest)])
  }

  /** The nearest message before the end that is not a tool message is a tool-calling assistant. */
  predicate OpenRun(s: seq<Message>) {
    s != [] &&
    if s[|s| - 1].role.Tool? then OpenRun(s[..|s| - 1]) else CallsTools(s[|s| - 1])
  }

  /** A tool-calling assistant may follow only a user message or a tool result. */
  predicate MayCallAfter(s: seq<Message>) {
    s != [] && (s[|s| - 1].role.User? || s[|s| - 1].role.Tool?)
  }

  /** The nonempty ids answered by the tool messages of s. */
  function ResultIds(s: seq<Message>): set<string> {
    set k | 0 <= k < |s| && s[k].role.Tool? && s[k].callId != "" :: s[k].callId
  }

  ghost predicate Subsequence(a: seq<Message>, b: seq<Message>) {
    a == [] || (b != [] && ((a[0] == b[0] && Subsequence(a[1..], b[1..])) || Subsequence(a, b[1..])))
  }

  lemma {:induction false} SubsequenceRefl(a: seq<Message>)
    ensures Subsequence(a, a)
  {
    if a != [] {
      SubsequenceRefl(a[1..]);
    }
  }

  lemma {:induction false} SubsequenceTrans(a: seq<Message>, b: seq<Message>, c: seq<Message>)
    requires Subsequence(a, b) && Subsequence(b, c)
    ensures Subsequence(a, c)
    decreases |c|
  {
    if a != [] {
      if b[0] == c[0] && Subsequence(b[1..], c[1..]) {
        if a[0] == b[0] && Subsequence(a[1..], b[1..]) {
          SubsequenceTrans(a[1..], b[1..], c[1..]);
        } else {
          SubsequenceTrans(a, b[1..], c[1..]);
        }
      } else {
        SubsequenceTrans(a, b, c[1..]);
      }
    }
  }

  /** The messages of s that satisfy Plain, in order. */
  function PlainOf(s: seq<Message>): seq<Message> {
    if s == [] then [] else (if Plain(s[0]) then [s[0]] else []) + PlainOf(s[1..])
  }
}

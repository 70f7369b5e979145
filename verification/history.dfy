/** The conversation history kept in a debug record (src/api.js, in
    `parseWebSocketMessage` and in the full-snapshot branch of `sendMessage`):
    every system message, one placeholder for whatever was dropped, and the
    last user message. */
module History {
  import opened Wrappers
  import opened Json
  import opened Text

  /** `msg?.role === role`. */
  predicate HasRole(m: Json, role: string) {
    FieldIs(m, "role", role)
  }

  /** The placeholder standing for the dropped messages. */
  const Placeholder: Json := JObj(map["role" := JStr("system"), "content" := JStr("...(省略历史消息)...")])

  /** `messages.filter(msg => msg?.role === role)`. */
  function OfRole(ms: seq<Json>, role: string): (r: seq<Json>)
    ensures |r| <= |ms|
    ensures forall k :: 0 <= k < |r| ==> HasRole(r[k], role) && r[k] in ms
    ensures forall k :: 0 <= k < |ms| && HasRole(ms[k], role) ==> ms[k] in r
  {
    if ms == [] then []
    else (if HasRole(ms[0], role) then [ms[0]] else []) + OfRole(ms[1..], role)
  }

  /** A single message is kept exactly when it has the role. */
  lemma OfRoleOne(m: Json, role: string)
    ensures OfRole([m], role) == if HasRole(m, role) then [m] else []
  {
    assert [m][1..] == [];
  }

  /** `messages.filter(msg => msg?.role === role).pop()`: the last message with that role. */
  function LastOfRole(ms: seq<Json>, role: string): (r: Option<Json>)
    ensures r.Some? ==> HasRole(r.value, role) && r.value in ms
    ensures r.None? <==> forall k :: 0 <= k < |ms| ==> !HasRole(ms[k], role)
  {
    if ms == [] then None
    else if HasRole(ms[|ms| - 1], role) then Some(ms[|ms| - 1])
    else LastOfRole(ms[..|ms| - 1], role)
  }

  /** The number of messages that are neither system nor user messages. */
  function CountOthers(ms: seq<Json>): nat {
    if ms == [] then 0
    else (if !HasRole(ms[0], "system") && !HasRole(ms[0], "user") then 1 else 0) + CountOthers(ms[1..])
  }

  /** The truncated history: the system messages in order, the placeholder when
      any other message is left out, then the last user message. */
  function Truncate(ms: seq<Json>): (r: seq<Json>)
    ensures forall k :: 0 <= k < |r| ==> r[k] in ms || r[k] == Placeholder
  {
    var sys := OfRole(ms, "system");
    var last := LastOfRole(ms, "user");
    var dropped := |ms| > |sys| + (if last.Some? then 1 else 0);
    sys + (if dropped then [Placeholder] else []) + (if last.Some? then [last.value] else [])
  }

  /** Every message splits into system, user and other messages. */
  lemma {:induction false} RoleCounts(ms: seq<Json>)
    ensures |ms| == |OfRole(ms, "system")| + |OfRole(ms, "user")| + CountOthers(ms)
  {
    if ms != [] {
      RoleCounts(ms[1..]);
      if HasRole(ms[0], "system") {
        assert !HasRole(ms[0], "user");
      }
    }
  }

  lemma {:induction false} NoneOfRole(ms: seq<Json>, role: string)
    ensures LastOfRole(ms, role).None? <==> |OfRole(ms, role)| == 0
  {
    var r := OfRole(ms, role);
    if |r| > 0 {
      var k :| 0 <= k < |ms| && ms[k] == r[0];
      assert HasRole(ms[k], role);
    }
  }

  lemma {:induction false} OthersExist(ms: seq<Json>)
    ensures CountOthers(ms) > 0 <==> exists k :: 0 <= k < |ms| && !HasRole(ms[k], "system") && !HasRole(ms[k], "user")
  {
    if ms != [] {
      OthersExist(ms[1..]);
      if CountOthers(ms[1..]) > 0 {
        var k :| 0 <= k < |ms[1..]| && !HasRole(ms[1..][k], "system") && !HasRole(ms[1..][k], "user");
        assert ms[k + 1] == ms[1..][k];
      }
      if exists k :: 0 <= k < |ms| && !HasRole(ms[k], "system") && !HasRole(ms[k], "user") {
        var k :| 0 <= k < |ms| && !HasRole(ms[k], "system") && !HasRole(ms[k], "user");
        if k > 0 {
          assert ms[1..][k - 1] == ms[k];
        }
      }
    }
  }

  /** The placeholder appears exactly when something is left out: a message that
      is neither a system nor a user message, or a user message before the last. */
  lemma PlaceholderIffDropped(ms: seq<Json>)
    ensures var sys := OfRole(ms, "system");
      var last := LastOfRole(ms, "user");
      (|ms| > |sys| + (if last.Some? then 1 else 0)) <==>
        ((exists k :: 0 <= k < |ms| && !HasRole(ms[k], "system") && !HasRole(ms[k], "user"))
         || |OfRole(ms, "user")| >= 2)
  {
    RoleCounts(ms);
    NoneOfRole(ms, "user");
    OthersExist(ms);
  }

  /** Filtering by role keeps the original order: it distributes over concatenation. */
  lemma {:induction false} OfRoleAppend(a: seq<Json>, b: seq<Json>, role: string)
    ensures OfRole(a + b, role) == OfRole(a, role) + OfRole(b, role)
  {
    if a == [] {
      assert a + b == b;
    } else {
      OfRoleAppend(a[1..], b, role);
      var h := if HasRole(a[0], role) then [a[0]] else [];
      assert (a + b)[1..] == a[1..] + b;
      assert (a + b)[0] == a[0];
      calc {
        OfRole(a + b, role);
        h + OfRole(a[1..] + b, role);
        h + (OfRole(a[1..], role) + OfRole(b, role));
        { AppendAssoc(h, OfRole(a[1..], role), OfRole(b, role)); }
        (h + OfRole(a[1..], role)) + OfRole(b, role);
      }
    }
  }

  lemma {:induction false} OfRoleAll(ms: seq<Json>, role: string)
    requires forall k :: 0 <= k < |ms| ==> HasRole(ms[k], role)
    ensures OfRole(ms, role) == ms
  {
    if ms != [] {
      OfRoleAll(ms[1..], role);
    }
  }

  lemma {:induction false} OfRoleNone(ms: seq<Json>, role: string)
    requires forall k :: 0 <= k < |ms| ==> !HasRole(ms[k], role)
    ensures OfRole(ms, role) == []
  {
    if ms != [] {
      OfRoleNone(ms[1..], role);
    }
  }

  /** The last message of a role, when the sequence ends with messages of other roles. */
  lemma {:induction false} LastOfRoleSkip(a: seq<Json>, b: seq<Json>, role: string)
    requires forall k :: 0 <= k < |b| ==> !HasRole(b[k], role)
    ensures LastOfRole(a + b, role) == LastOfRole(a, role)
    decreases |b|
  {
    if b != [] {
      var ab := a + b;
      assert ab[..|ab| - 1] == a + b[..|b| - 1];
      LastOfRoleSkip(a, b[..|b| - 1], role);
    } else {
      assert a + b == a;
    }
  }

  lemma RolesDiffer(m: Json)
    ensures !(HasRole(m, "system") && HasRole(m, "user"))
  {
  }

  /** The pieces of a truncated history: its system part and its user part. */
  function SystemPart(ms: seq<Json>): seq<Json> {
    var sys := OfRole(ms, "system");
    var last := LastOfRole(ms, "user");
    sys + (if |ms| > |sys| + (if last.Some? then 1 else 0) then [Placeholder] else [])
  }

  function UserPart(ms: seq<Json>): seq<Json> {
    var last := LastOfRole(ms, "user");
    if last.Some? then [last.value] else []
  }

  lemma TruncateParts(ms: seq<Json>)
    ensures Truncate(ms) == SystemPart(ms) + UserPart(ms)
    ensures forall k :: 0 <= k < |SystemPart(ms)| ==> HasRole(SystemPart(ms)[k], "system")
    ensures forall k :: 0 <= k < |UserPart(ms)| ==> HasRole(UserPart(ms)[k], "user")
  {
    assert HasRole(Placeholder, "system");
  }

  /** The system messages of a truncated history are its system part. */
  lemma TruncatedSystem(ms: seq<Json>)
    ensures OfRole(Truncate(ms), "system") == SystemPart(ms)
  {
    var a := SystemPart(ms);
    var b := UserPart(ms);
    TruncateParts(ms);
    OfRoleAll(a, "system");
    forall k | 0 <= k < |b| ensures !HasRole(b[k], "system") { RolesDiffer(b[k]); }
    OfRoleNone(b, "system");
    OfRoleAppend(a, b, "system");
    assert a + [] == a;
  }

  /** The last user message of a truncated history is the original one. */
  lemma TruncatedLastUser(ms: seq<Json>)
    ensures LastOfRole(Truncate(ms), "user") == LastOfRole(ms, "user")
  {
    var a := SystemPart(ms);
    var b := UserPart(ms);
    TruncateParts(ms);
    if b == [] {
      forall k | 0 <= k < |a| ensures !HasRole(a[k], "user") { RolesDiffer(a[k]); }
      LastOfRoleSkip([], a, "user");
      assert [] + a == a;
      assert a + b == a;
    } else {
      var t := a + b;
      assert t[|t| - 1] == b[0];
    }
  }

  /** Truncating an already truncated history changes nothing. */
  lemma TruncateIdempotent(ms: seq<Json>)
    ensures Truncate(Truncate(ms)) == Truncate(ms)
  {
    TruncateParts(ms);
    TruncatedSystem(ms);
    TruncatedLastUser(ms);
  }
}

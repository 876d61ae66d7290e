/** The commit classifier and sorter: each commit message is split into
    one record per `type(scope): body` paragraph, then one per `type: body`
    paragraph, and the records are ordered by a comparator that reads
    `fix` as `bug fix`, drops `min`, and puts `ci` and `build` last. */
module Commits {
  import opened Wrappers
  import opened Text
  import opened Regexes
  import Semver

  /** A commit record. `subject` and `scope` are absent on a commit that
      no grammar split; an empty `message` or `messageBody` stands for an
      absent one. */
  datatype Commit = Commit(
    author: string, committer: string, gitTags: string, hash: string, committerDate: string,
    message: string, messageBody: string, subject: Option<string>, scope: Option<string>)

  /** `r` is a copy of `c` in everything that identifies the commit. */
  predicate SameOrigin(c: Commit, r: Commit)
  {
    r.author == c.author && r.committer == c.committer && r.gitTags == c.gitTags &&
    r.hash == c.hash && r.committerDate == c.committerDate
  }

  // ---------------------------------------------------------------------
  // parseCommitMessage
  // ---------------------------------------------------------------------

  /** The record one match yields: `{ ...commit }` with the match as the
      message and the groups as subject, scope (scoped grammar only) and
      body. Each grammar yields its own number of groups, so the last case
      is never reached. */
  function FromMatch(c: Commit, m: Match): (r: Commit)
    ensures SameOrigin(c, r)
    ensures 2 <= |m.groups| <= 3 ==> r.subject == Some(m.groups[0]) && r.message == m.text
  {
    if |m.groups| == 3 then
      c.(message := m.text, subject := Some(m.groups[0]), scope := Some(m.groups[1]), messageBody := m.groups[2])
    else if |m.groups| == 2 then
      c.(message := m.text, subject := Some(m.groups[0]), messageBody := m.groups[1])
    else c
  }

  /** The records of a run of matches, in order. */
  function Records(c: Commit, ms: seq<Match>): (r: seq<Commit>)
    ensures |r| == |ms|
  {
    if |ms| == 0 then []
    else [FromMatch(c, ms[0])] + Records(c, ms[1..])
  }

  /** The text both grammars run over: the message and the sentinel. */
  function Searched(c: Commit): string
  {
    c.message + EndMessage
  }

  /** What `parseCommitMessage` returns: the scoped records, then the
      unscoped ones, or the commit itself when neither grammar matched. */
  function Parsed(c: Commit): seq<Commit>
  {
    var t := Searched(c);
    var all := Records(c, AllMatches(Scoped, t, 0)) + Records(c, AllMatches(Unscoped, t, 0));
    if |all| == 0 then [c] else all
  }

  /** The `exec` loop of one grammar: each match is copied into a record and
      the search resumes where the match ended. */
  method CollectMatches(c: Commit, g: Grammar) returns (records: seq<Commit>)
    ensures records == Records(c, AllMatches(g, Searched(c), 0))
  {
    RecogniserAdvances(g, Searched(c));
    records := CollectWith(c, Recogniser(g), Searched(c));
  }

  /** The same loop over any recogniser that always moves on, run over the
      text `t`. */
  method CollectWith(c: Commit, at: (string, nat) -> Option<Match>, t: string) returns (records: seq<Commit>)
    requires Advances(at, t)
    ensures records == Records(c, AllWith(at, t, 0))
  {
    records := [];
    var lastIndex: nat := 0;
    var m := ExecWith(at, t, lastIndex);
    while m.Some?
      invariant m == ExecWith(at, t, lastIndex)
      invariant records + Records(c, AllWith(at, t, lastIndex)) == Records(c, AllWith(at, t, 0))
      decreases |AllWith(at, t, lastIndex)|
    {
      var mv := m.value;
      assert AllWith(at, t, lastIndex) == [mv] + AllWith(at, t, mv.end);
      assert ([mv] + AllWith(at, t, mv.end))[1..] == AllWith(at, t, mv.end);
      records := records + [FromMatch(c, mv)];
      lastIndex := mv.end;
      m := ExecWith(at, t, lastIndex);
    }
    assert AllWith(at, t, lastIndex) == [];
  }

  /** `parseCommitMessage`. */
  method ParseCommitMessage(c: Commit) returns (commits: seq<Commit>)
    ensures commits == Parsed(c)
  {
    var scoped := CollectMatches(c, Scoped);
    var plain := CollectMatches(c, Unscoped);
    commits := scoped + plain;
    if |commits| == 0 {
      commits := commits + [c];
    }
  }

  /** Every record of a run keeps the commit's origin and takes its subject
      from the match's first group. */
  lemma {:induction false} RecordsOfRun(c: Commit, g: Grammar, t: string, ms: seq<Match>)
    requires FitsAll(g, t, ms)
    ensures forall i :: 0 <= i < |ms| ==>
      SameOrigin(c, Records(c, ms)[i]) && Records(c, ms)[i].subject == Some(ms[i].groups[0])
  {
    if |ms| > 0 {
      RecordsOfRun(c, g, t, ms[1..]);
      forall i | 0 < i < |ms|
        ensures Records(c, ms)[i] == Records(c, ms[1..])[i - 1] && ms[i] == ms[1..][i - 1]
      {
      }
    }
  }

  /** Parsing never loses a commit: the result is never empty and every
      record keeps the commit's hash, author, committer, tags and date.
      The commit comes back unchanged when no paragraph matched; otherwise
      every record has a subject, so the commit itself is not among them
      when it had none. */
  lemma ParsedKeepsCommit(c: Commit)
    ensures |Parsed(c)| >= 1
    ensures forall i :: 0 <= i < |Parsed(c)| ==> SameOrigin(c, Parsed(c)[i])
    ensures var t := Searched(c);
      if AllMatches(Scoped, t, 0) == [] && AllMatches(Unscoped, t, 0) == [] then Parsed(c) == [c]
      else forall i :: 0 <= i < |Parsed(c)| ==> Parsed(c)[i].subject.Some?
  {
    var t := Searched(c);
    var a, b := AllMatches(Scoped, t, 0), AllMatches(Unscoped, t, 0);
    RecordsOfRun(c, Scoped, t, a);
    RecordsOfRun(c, Unscoped, t, b);
    var all := Records(c, a) + Records(c, b);
    if |all| > 0 {
      forall i | 0 <= i < |all| ensures SameOrigin(c, all[i]) && all[i].subject.Some? {
        if i >= |a| {
          assert all[i] == Records(c, b)[i - |a|];
        }
      }
    }
  }

  /** The scoped records come first, in message order, then the unscoped
      ones. */
  lemma ParsedOrder(c: Commit)
    requires var t := Searched(c); |AllMatches(Scoped, t, 0)| + |AllMatches(Unscoped, t, 0)| > 0
    ensures var t := Searched(c);
      var n := |AllMatches(Scoped, t, 0)|;
      Parsed(c)[..n] == Records(c, AllMatches(Scoped, t, 0)) &&
      Parsed(c)[n..] == Records(c, AllMatches(Unscoped, t, 0))
  {
  }

  /** A record from the scoped grammar holds the match as its message, a
      non-empty letter-only subject, the scope between the parentheses and
      the body that ends the match. */
  lemma ScopedRecordShape(c: Commit, i: nat)
    requires i < |AllMatches(Scoped, Searched(c), 0)|
    ensures var r := Records(c, AllMatches(Scoped, Searched(c), 0))[i];
      r.subject.Some? && r.scope.Some? && |r.subject.value| > 0 && AllLetters(r.subject.value) &&
      EndsWith(r.message, r.messageBody) &&
      StartsWith(r.message, r.subject.value + "(" + r.scope.value + ")")
  {
    var t := Searched(c);
    var ms := AllMatches(Scoped, t, 0);
    RecordAt(c, ms, i);
    AllMatchesAreMatches(Scoped, t, 0, i);
    ScopedMatchParts(t, ms[i]);
    ScopedRecordOf(c, t, ms[i]);
  }

  /** The record of one scoped match. */
  lemma ScopedRecordOf(c: Commit, t: string, m: Match)
    requires ScopedParts(t, m)
    ensures var r := FromMatch(c, m);
      r.subject.Some? && r.scope.Some? && |r.subject.value| > 0 && AllLetters(r.subject.value) &&
      EndsWith(r.message, r.messageBody) &&
      StartsWith(r.message, r.subject.value + "(" + r.scope.value + ")")
  {
    HeadOfSlice(t, m.start, m.end, m.groups[0], m.groups[1]);
    TailOfSlice(t, m.start, m.end, m.groups[2]);
  }

  /** A text that holds `a(b)` at `p` has a slice from `p` starting with it. */
  lemma HeadOfSlice(s: string, p: nat, e: nat, a: string, b: string)
    requires p + |a| + |b| + 2 <= e <= |s|
    requires s[p..p + |a|] == a && s[p + |a|] == '(' && s[p + |a| + 1..p + |a| + 1 + |b|] == b
    requires s[p + |a| + 1 + |b|] == ')'
    ensures StartsWith(s[p..e], a + "(" + b + ")")
  {
    var lead := a + "(" + b + ")";
    forall k | 0 <= k < |lead| ensures s[p..e][k] == lead[k] {
      if k < |a| {
        assert s[p..p + |a|][k] == a[k];
      } else if |a| < k < |a| + 1 + |b| {
        assert s[p + |a| + 1..p + |a| + 1 + |b|][k - |a| - 1] == b[k - |a| - 1];
      }
    }
  }

  /** A text that holds `x` just before `e` has a slice ending at `e` that
      ends with it. */
  lemma TailOfSlice(s: string, p: nat, e: nat, x: string)
    requires p <= e - |x| && e <= |s| && s[e - |x|..e] == x
    ensures EndsWith(s[p..e], x)
  {
    assert s[p..e][e - p - |x|..] == s[e - |x|..e];
  }

  /** The `i`-th record of a run is the record of the `i`-th match. */
  lemma {:induction false} RecordAt(c: Commit, ms: seq<Match>, i: nat)
    requires i < |ms|
    ensures Records(c, ms)[i] == FromMatch(c, ms[i])
    decreases i
  {
    if i > 0 {
      RecordAt(c, ms[1..], i - 1);
    }
  }

  // ---------------------------------------------------------------------
  // sortCommitMessages
  // ---------------------------------------------------------------------

  /** A subject as the comparator reads it: `fix` stands for `bug fix`,
      and a non-empty subject that starts or ends with `min` loses its
      first `min`. An absent subject stays absent. */
  function SortSubject(subject: Option<string>): (r: Option<string>)
    ensures subject.None? <==> r.None?
  {
    match subject
    case None => None
    case Some(s) =>
      var t := if s == "fix" then "bug fix" else s;
      if t != "" && (StartsWith(t, "min") || EndsWith(t, "min")) then Some(ReplaceFirst(t, "min", "")) else Some(t)
  }

  /** Whether an optional text is truthy: present and not empty. */
  predicate Truthy(s: Option<string>)
  {
    s.Some? && s.value != ""
  }

  /** The characters of a scope in the comparator's pattern:
      `[a-z0-9\- ]`. */
  predicate IsSortScopeChar(c: char)
  {
    IsLower(c) || IsDigit(c) || c == '-' || c == ' '
  }

  /** `\s*:` at `q`: white space, then a colon. The white space is a greedy
      run that ends where the colon must stand. */
  predicate ColonAfterSpace(s: string, q: nat)
    requires q <= |s|
  {
    var c := q + Span(s, q, IsWhiteSpace);
    c < |s| && s[c] == ':'
  }

  /** The test of the pattern `^[a-z]+\([a-z0-9\- ]*\)\s*: *` or
      `^[a-z]+\s*: *` on a message: the message starts with a lower-case type, optionally a parenthesised scope, then
      a colon after optional white space. The pattern has neither the `i`
      nor the `m` flag, so it is case-sensitive and anchored at the start
      of the message. */
  predicate LooksConventional(a: string)
  {
    var t := Span(a, 0, IsLower);
    t > 0 &&
      (ColonAfterSpace(a, t) ||
       (t < |a| && a[t] == '(' &&
        var e := t + 1 + Span(a, t + 1, IsSortScopeChar);
        e < |a| && a[e] == ')' && ColonAfterSpace(a, e + 1)))
  }

  /** What the comparator reads of a record: the subject as it reads it,
      the message, and whether the message looks conventional. */
  datatype View = View(subject: Option<string>, message: string, conventional: bool)

  function ViewOf(c: Commit): (v: View)
    ensures v.message == c.message
  {
    View(SortSubject(c.subject), c.message, LooksConventional(c.message))
  }

  /** The comparator `sortCommitMessages` hands to `Array.prototype.sort`,
      with `localeCompare` read as ordinal comparison. */
  function Compare(c1: Commit, c2: Commit): int
  {
    CompareViews(ViewOf(c1), ViewOf(c2))
  }

  /** The comparator's branches over what it reads of the two records. */
  function CompareViews(v1: View, v2: View): int
  {
    var s1, s2 := v1.subject, v2.subject;
    if s1 == Some("build") then 1
    else if s2 == Some("build") then -1
    else if s1 == Some("ci") then (if s2 == Some("build") then -1 else 1)
    else if s2 == Some("ci") then (if s1 == Some("build") then 1 else -1)
    else if Truthy(s1) && Truthy(s2) then Semver.CmpStr(s1.value, s2.value)
    else if Truthy(s1) then -1
    else if Truthy(s2) then 1
    else
      var a, b := v1.message, v2.message;
      if a != "" && b != "" && v1.conventional && v2.conventional then Semver.CmpStr(a, b)
      else if a != "" && b != "" && v1.conventional then -1
      else if a != "" && b != "" && v2.conventional then 1
      else if a == "" then 1
      else if b == "" then -1
      else 0
  }

  /** Where a record stands in the order the comparator induces: its rank
      and, for the ranks ordered among themselves, the text compared. */
  datatype SortKey = SortKey(rank: nat, text: string)

  /** The ranks: 0 a typed record (by subject), 1 an untyped record whose
      message looks conventional (by message), 2 any other untyped record
      with a message, 3 an untyped record without one, 4 `ci`, 5 `build`. */
  function Key(c: Commit): (k: SortKey)
    ensures k.rank <= 5
    ensures k.rank != 0 && k.rank != 1 ==> k.text == ""
  {
    ViewKey(ViewOf(c))
  }

  function ViewKey(v: View): (k: SortKey)
    ensures k.rank <= 5
    ensures k.rank != 0 && k.rank != 1 ==> k.text == ""
  {
    if v.subject == Some("build") then SortKey(5, "")
    else if v.subject == Some("ci") then SortKey(4, "")
    else if Truthy(v.subject) then SortKey(0, v.subject.value)
    else if v.message == "" then SortKey(3, "")
    else if v.conventional then SortKey(1, v.message)
    else SortKey(2, "")
  }

  /** Lower rank first, then ordinal order of the text. */
  predicate KeyLess(k: SortKey, l: SortKey)
  {
    k.rank < l.rank || (k.rank == l.rank && Semver.CmpStr(k.text, l.text) < 0)
  }

  /** The comparator stated by rank: -1 and 1 where the keys are ordered;
      for equal keys 0, except among `ci`, `build` and message-less
      records, where every comparison answers 1. */
  function ByKey(c1: Commit, c2: Commit): (r: int)
  {
    if KeyLess(Key(c1), Key(c2)) then -1
    else if KeyLess(Key(c2), Key(c1)) then 1
    else if Key(c1).rank >= 3 then 1
    else 0
  }

  /** The comparator is the rank order: `fix` is `bug fix`, a typed
      record comes before an untyped one, conventional-looking messages
      before other messages, records without a message after those, then
      `ci`, then `build`. */
  lemma CompareByKey(c1: Commit, c2: Commit)
    ensures Compare(c1, c2) == ByKey(c1, c2)
  {
    ViewsByKey(ViewOf(c1), ViewOf(c2));
  }

  lemma ViewsByKey(v1: View, v2: View)
    ensures var k1, k2 := ViewKey(v1), ViewKey(v2);
      CompareViews(v1, v2) ==
        if KeyLess(k1, k2) then -1 else if KeyLess(k2, k1) then 1 else if k1.rank >= 3 then 1 else 0
  {
    var k1, k2 := ViewKey(v1), ViewKey(v2);
    if k1.rank == k2.rank && k1.rank < 2 {
      Semver.CmpStrAntisym(k1.text, k2.text);
    }
  }

  /** The strict part of the order is transitive, and two records neither
      of which comes first stand equal to every third one: the rank order
      is a strict weak order. */
  lemma KeyLessTrans(k: SortKey, l: SortKey, m: SortKey)
    requires KeyLess(k, l) && KeyLess(l, m)
    ensures KeyLess(k, m)
  {
    if k.rank == l.rank == m.rank {
      Semver.CmpStrTrans(k.text, l.text, m.text);
      Semver.CmpStrAntisym(k.text, m.text);
      if Semver.CmpStr(k.text, m.text) == 0 {
        Semver.CmpStrAntisym(k.text, l.text);
        Semver.CmpStrTrans(l.text, m.text, k.text);
      }
    }
  }

  /** A key is never before one that is not after it: `KeyLess` is
      asymmetric, and "not before" is transitive. */
  lemma KeyNotLessTrans(k: SortKey, l: SortKey, m: SortKey)
    requires !KeyLess(l, k) && !KeyLess(m, l)
    ensures !KeyLess(m, k)
  {
    Semver.CmpStrAntisym(k.text, l.text);
    Semver.CmpStrAntisym(l.text, m.text);
    Semver.CmpStrAntisym(k.text, m.text);
    if k.rank == l.rank == m.rank && Semver.CmpStr(m.text, k.text) < 0 {
      Semver.CmpStrTrans(m.text, k.text, l.text);
      Semver.CmpStrTrans(l.text, m.text, k.text);
    }
  }

  /** The comparator is not a consistent order: a `build` record compares
      greater than itself. */
  lemma BuildAfterItself(c: Commit)
    requires c.subject == Some("build")
    ensures Compare(c, c) == 1
  {
    assert "build"[..3] != "min" by { assert "build"[0] == 'b'; }
    assert "build"[2..] != "min" by { assert "build"[4] == 'd'; }
  }

  /** `fix` reads as `bug fix`, and a subject that starts with `min` is read
      without it. */
  lemma SortSubjectReads(x: string)
    requires "min" + x != "fix"
    ensures SortSubject(Some("fix")) == Some("bug fix")
    ensures SortSubject(Some("min" + x)) == Some(x)
  {
    ReplaceFirstPrefix("min", x);
    assert StartsWith("min" + x, "min");
    assert !StartsWith("bug fix", "min") by { assert "bug fix"[0] == 'b'; }
    assert !EndsWith("bug fix", "min") by { assert "bug fix"[6] == 'x'; }
  }

  // ---------------------------------------------------------------------
  // The sort
  // ---------------------------------------------------------------------

  /** Whether the comparator puts `x` before `y`: the only answer a sort
      acts on when it moves `x` ahead of `y`. */
  predicate Before(x: Commit, y: Commit)
  {
    Compare(x, y) < 0
  }

  /** `x` inserted into `s` from the right: it moves past every record it
      comes before. */
  function InsertWith(before: (Commit, Commit) -> bool, s: seq<Commit>, x: Commit): (r: seq<Commit>)
    ensures |r| == |s| + 1
    decreases |s|
  {
    if |s| == 0 || !before(x, s[|s| - 1]) then s + [x]
    else InsertWith(before, s[..|s| - 1], x) + [s[|s| - 1]]
  }

  /** Insertion sort: each record in turn inserted into the sorted records
      before it. */
  function SortWith(before: (Commit, Commit) -> bool, xs: seq<Commit>): (r: seq<Commit>)
    ensures |r| == |xs|
    decreases |xs|
  {
    if |xs| == 0 then []
    else InsertWith(before, SortWith(before, xs[..|xs| - 1]), xs[|xs| - 1])
  }

  /** `before` is the strict order of the keys `key` assigns. */
  ghost predicate OrdersBy(before: (Commit, Commit) -> bool, key: Commit -> SortKey)
  {
    forall x, y :: before(x, y) == KeyLess(key(x), key(y))
  }

  /** No record has a key below that of a record before it. */
  ghost predicate SortedBy(key: Commit -> SortKey, s: seq<Commit>)
  {
    forall i, j :: 0 <= i < j < |s| ==> !KeyLess(key(s[j]), key(s[i]))
  }

  lemma {:induction false} InsertPermutes(before: (Commit, Commit) -> bool, s: seq<Commit>, x: Commit)
    ensures multiset(InsertWith(before, s, x)) == multiset(s) + multiset{x}
    decreases |s|
  {
    if |s| > 0 && before(x, s[|s| - 1]) {
      var init := s[..|s| - 1];
      InsertPermutes(before, init, x);
      assert s == init + [s[|s| - 1]];
    }
  }

  /** Sorting keeps every record, as often as it occurs. */
  lemma {:induction false} SortPermutes(before: (Commit, Commit) -> bool, xs: seq<Commit>)
    ensures multiset(SortWith(before, xs)) == multiset(xs)
    decreases |xs|
  {
    if |xs| > 0 {
      var init := xs[..|xs| - 1];
      SortPermutes(before, init);
      InsertPermutes(before, SortWith(before, init), xs[|xs| - 1]);
      assert xs == init + [xs[|xs| - 1]];
    }
  }

  /** Inserting into sorted records keeps them sorted. */
  lemma {:induction false} InsertSorted(before: (Commit, Commit) -> bool, key: Commit -> SortKey, s: seq<Commit>, x: Commit)
    requires OrdersBy(before, key) && SortedBy(key, s)
    ensures SortedBy(key, InsertWith(before, s, x))
    decreases |s|
  {
    if |s| > 0 {
      var n := |s| - 1;
      var last := s[n];
      assert before(x, last) == KeyLess(key(x), key(last));
      if !before(x, last) {
        forall i | 0 <= i < |s| ensures !KeyLess(key(x), key(s[i])) {
          if i < n {
            KeyNotLessTrans(key(s[i]), key(last), key(x));
          }
        }
        SortedSnoc(key, s, x);
      } else {
        var init := s[..n];
        assert SortedBy(key, init);
        assert s == init + [last];
        InsertSorted(before, key, init, x);
        InsertedBelow(before, key, init, x, last);
        SortedSnoc(key, InsertWith(before, init, x), last);
      }
    }
  }

  /** A record not below any of sorted records can follow them. */
  lemma SortedSnoc(key: Commit -> SortKey, s: seq<Commit>, x: Commit)
    requires SortedBy(key, s)
    requires forall i :: 0 <= i < |s| ==> !KeyLess(key(x), key(s[i]))
    ensures SortedBy(key, s + [x])
  {
    var r := s + [x];
    forall i, j | 0 <= i < j < |r| ensures !KeyLess(key(r[j]), key(r[i])) {
      if j < |s| {
        assert r[i] == s[i] && r[j] == s[j];
      }
    }
  }

  /** When `x` goes before the last of the sorted records, that last record
      is below none of the records the rest and `x` make. */
  lemma InsertedBelow(before: (Commit, Commit) -> bool, key: Commit -> SortKey, init: seq<Commit>, x: Commit, last: Commit)
    requires SortedBy(key, init + [last]) && KeyLess(key(x), key(last))
    ensures forall i :: 0 <= i < |InsertWith(before, init, x)| ==> !KeyLess(key(last), key(InsertWith(before, init, x)[i]))
  {
    var r := InsertWith(before, init, x);
    InsertPermutes(before, init, x);
    forall i | 0 <= i < |r| ensures !KeyLess(key(last), key(r[i])) {
      assert r[i] in multiset(r);
      if r[i] == x {
        KeyLessAsym(key(x), key(last));
      } else {
        assert r[i] in multiset(init);
        var k :| 0 <= k < |init| && init[k] == r[i];
        assert (init + [last])[k] == init[k] && (init + [last])[|init|] == last;
      }
    }
  }

  lemma KeyLessAsym(k: SortKey, l: SortKey)
    requires KeyLess(k, l)
    ensures !KeyLess(l, k)
  {
    Semver.CmpStrAntisym(k.text, l.text);
  }

  /** Insertion sort by a strict order of keys leaves the keys in
      non-decreasing order. */
  lemma {:induction false} SortSorted(before: (Commit, Commit) -> bool, key: Commit -> SortKey, xs: seq<Commit>)
    requires OrdersBy(before, key)
    ensures SortedBy(key, SortWith(before, xs))
    decreases |xs|
  {
    if |xs| > 0 {
      SortSorted(before, key, xs[..|xs| - 1]);
      InsertSorted(before, key, SortWith(before, xs[..|xs| - 1]), xs[|xs| - 1]);
    }
  }

  /** The comparator's "comes first" is the rank order. */
  lemma BeforeOrdersByKey()
    ensures OrdersBy(Before, Key)
  {
    forall x, y ensures Before(x, y) == KeyLess(Key(x), Key(y)) {
      CompareByKey(x, y);
    }
  }

  /** `sortCommitMessages` leaves the same records, and no record compares
      below one that precedes it. */
  lemma SortedCommits(xs: seq<Commit>)
    ensures multiset(SortWith(Before, xs)) == multiset(xs)
    ensures var r := SortWith(Before, xs);
      forall i, j :: 0 <= i < j < |r| ==> Compare(r[j], r[i]) != -1
  {
    SortPermutes(Before, xs);
    BeforeOrdersByKey();
    SortSorted(Before, Key, xs);
    var r := SortWith(Before, xs);
    forall i, j | 0 <= i < j < |r| ensures Compare(r[j], r[i]) != -1 {
      CompareByKey(r[j], r[i]);
    }
  }

  /** `commits.sort(comparator)` in place, as an insertion sort that moves
      a record ahead only past records the comparator puts after it. */
  method SortCommitMessages(a: array<Commit>)
    modifies a
    ensures a[..] == SortWith(Before, old(a[..]))
  {
    SortInPlace(a, Before);
  }

  /** Insertion sort of an array by a "comes first" test. */
  method SortInPlace(a: array<Commit>, before: (Commit, Commit) -> bool)
    modifies a
    ensures a[..] == SortWith(before, old(a[..]))
  {
    ghost var xs := a[..];
    var i := 0;
    while i < a.Length
      invariant 0 <= i <= a.Length
      invariant a[..] == SortWith(before, xs[..i]) + xs[i..]
    {
      SortStep(before, xs, i);
      SplitAt(a[..], SortWith(before, xs[..i]), xs[i..]);
      InsertNext(a, i, before);
      assert xs[i..] == [xs[i]] + xs[i + 1..];
      i := i + 1;
    }
    assert xs[..i] == xs;
  }

  /** Sorting one more record inserts it into the sorted prefix. */
  lemma SortStep(before: (Commit, Commit) -> bool, xs: seq<Commit>, i: nat)
    requires i < |xs|
    ensures SortWith(before, xs[..i + 1]) == InsertWith(before, SortWith(before, xs[..i]), xs[i])
  {
    assert xs[..i + 1][..i] == xs[..i];
  }

  /** A sequence made of two parts splits back into them. */
  lemma SplitAt(t: seq<Commit>, u: seq<Commit>, v: seq<Commit>)
    requires t == u + v && |v| > 0
    ensures t[..|u|] == u && t[|u|] == v[0] && t[|u| + 1..] == v[1..]
  {
  }

  /** One pass: the record at `i` moved into the sorted records before it,
      one exchange at a time. */
  method InsertNext(a: array<Commit>, i: nat, before: (Commit, Commit) -> bool)
    requires i < a.Length
    modifies a
    ensures a[..] == InsertWith(before, old(a[..i]), old(a[i])) + old(a[i + 1..])
  {
    ghost var s, rest := a[..i], a[i + 1..];
    var x := a[i];
    assert a[..] == s[..i] + [x] + s[i..] + rest;
    assert s[..i] == s && s[i..] == [];
    var j := i;
    while j > 0 && before(x, a[j - 1])
      invariant 0 <= j <= i
      invariant a[..] == s[..j] + [x] + s[j..] + rest
      invariant InsertWith(before, s, x) == InsertWith(before, s[..j], x) + s[j..]
    {
      assert a[j - 1] == s[j - 1];
      InsertStep(before, s, x, j);
      SwapStep(s, x, rest, j);
      a[j - 1], a[j] := a[j], a[j - 1];
      j := j - 1;
    }
    InsertStop(before, s, x, j);
  }

  /** Moving past one more record the new one comes before. */
  lemma InsertStep(before: (Commit, Commit) -> bool, s: seq<Commit>, x: Commit, j: nat)
    requires 0 < j <= |s| && before(x, s[j - 1])
    ensures InsertWith(before, s[..j], x) + s[j..] == InsertWith(before, s[..j - 1], x) + s[j - 1..]
  {
    assert s[..j][..j - 1] == s[..j - 1];
    assert s[j - 1..] == [s[j - 1]] + s[j..];
  }

  /** The new record stops after a record it does not come before. */
  lemma InsertStop(before: (Commit, Commit) -> bool, s: seq<Commit>, x: Commit, j: nat)
    requires j <= |s| && (j == 0 || !before(x, s[j - 1]))
    ensures InsertWith(before, s[..j], x) == s[..j] + [x]
  {
  }

  /** Exchanging the new record with the one before it moves it one left. */
  lemma SwapStep(s: seq<Commit>, x: Commit, rest: seq<Commit>, j: nat)
    requires 0 < j <= |s|
    ensures var t := s[..j] + [x] + s[j..] + rest;
      (t[j - 1 := t[j]])[j := t[j - 1]] == s[..j - 1] + [x] + s[j - 1..] + rest
  {
    var t := s[..j] + [x] + s[j..] + rest;
    var u := s[..j - 1] + [x] + s[j - 1..] + rest;
    var w := (t[j - 1 := t[j]])[j := t[j - 1]];
    assert |w| == |u|;
    forall k | 0 <= k < |u| ensures w[k] == u[k] {
      if k < j - 1 {
        assert t[k] == s[k] && u[k] == s[k];
      } else if k > j {
        assert t[k] == u[k];
      }
    }
  }

  // ---------------------------------------------------------------------
  // getCommits: classify, then sort
  // ---------------------------------------------------------------------

  /** A log entry as the version-control log reports it. The SVN log has
      no tags and names only an author; merged entries nested in an SVN log
      entry are taken here in document order, flattened. */
  datatype LogEntry = LogEntry(author: string, committer: string, tags: string, hash: string, message: string, date: string)

  /** Whether an entry yields commits: every git entry, and an SVN entry
      with a message. */
  predicate Read(repoType: string, e: LogEntry)
  {
    repoType == "git" || (repoType == "svn" && e.message != "")
  }

  /** The commit record an entry starts as: message and body are the
      trimmed message, no subject or scope yet. */
  function EntryCommit(repoType: string, e: LogEntry): (c: Commit)
    ensures c.message == Trim(e.message) && c.messageBody == c.message
    ensures c.subject.None? && c.scope.None? && c.hash == e.hash
  {
    if repoType == "git" then Commit(e.author, e.committer, Trim(e.tags), e.hash, e.date, Trim(e.message), Trim(e.message), None, None)
    else Commit(e.author, e.author, "", e.hash, e.date, Trim(e.message), Trim(e.message), None, None)
  }

  /** The records of the entries, in log order, before sorting. */
  function Collected(repoType: string, entries: seq<LogEntry>): seq<Commit>
    decreases |entries|
  {
    if |entries| == 0 then []
    else
      var e := entries[|entries| - 1];
      Collected(repoType, entries[..|entries| - 1]) + (if Read(repoType, e) then Parsed(EntryCommit(repoType, e)) else [])
  }

  /** `getCommits` past the log query: every entry parsed into records,
      then the records sorted. */
  method GetCommits(repoType: string, entries: seq<LogEntry>) returns (commits: seq<Commit>)
    ensures commits == SortWith(Before, Collected(repoType, entries))
  {
    var all: seq<Commit> := [];
    for k := 0 to |entries|
      invariant all == Collected(repoType, entries[..k])
    {
      assert entries[..k + 1][..k] == entries[..k];
      if Read(repoType, entries[k]) {
        var parsed := ParseCommitMessage(EntryCommit(repoType, entries[k]));
        all := all + parsed;
      }
    }
    assert entries[..|entries|] == entries;
    var a := new Commit[|all|](i requires 0 <= i < |all| => all[i]);
    assert a[..] == all;
    SortCommitMessages(a);
    commits := a[..];
  }

  /** Every git entry yields at least one record, so a git log yields at
      least as many records as entries. */
  lemma {:induction false} GitYieldsAll(entries: seq<LogEntry>)
    ensures |Collected("git", entries)| >= |entries|
    decreases |entries|
  {
    if |entries| > 0 {
      GitYieldsAll(entries[..|entries| - 1]);
      ParsedKeepsCommit(EntryCommit("git", entries[|entries| - 1]));
    }
  }

  /** A header that fits the comparator's pattern: a lower-case type, an
      optional parenthesised scope, white space, a colon. */
  lemma ConventionalLooks(ty: string, scope: string, ws: string, rest: string)
    requires |ty| > 0 && forall k :: 0 <= k < |ty| ==> IsLower(ty[k])
    requires forall k :: 0 <= k < |scope| ==> IsSortScopeChar(scope[k])
    requires forall k :: 0 <= k < |ws| ==> IsWhiteSpace(ws[k])
    ensures LooksConventional(ty + ws + ":" + rest)
    ensures LooksConventional(ty + "(" + scope + ")" + ws + ":" + rest)
  {
    var a := ty + ws + ":" + rest;
    forall k | 0 <= k < |ty| ensures IsLower(a[k]) { assert a[k] == ty[k]; }
    forall k | |ty| <= k < |ty| + |ws| ensures IsWhiteSpace(a[k]) { assert a[k] == ws[k - |ty|]; }
    LooksPlain(a, |ty|, |ty| + |ws|);
    var b := ty + "(" + scope + ")" + ws + ":" + rest;
    var e := |ty| + 1 + |scope|;
    forall k | 0 <= k < |ty| ensures IsLower(b[k]) { assert b[k] == ty[k]; }
    forall k | |ty| < k < e ensures IsSortScopeChar(b[k]) { assert b[k] == scope[k - |ty| - 1]; }
    forall k | e < k < e + 1 + |ws| ensures IsWhiteSpace(b[k]) { assert b[k] == ws[k - e - 1]; }
    LooksScoped(b, |ty|, e, e + 1 + |ws|);
  }

  /** The unscoped form, by position: letters up to `t`, white space up to
      `c`, a colon at `c`. */
  lemma LooksPlain(a: string, t: nat, c: nat)
    requires 0 < t <= c < |a| && a[c] == ':'
    requires forall k :: 0 <= k < t ==> IsLower(a[k])
    requires forall k :: t <= k < c ==> IsWhiteSpace(a[k])
    ensures LooksConventional(a)
  {
    SpanOfClass(a, 0, t, IsLower);
    SpanOfClass(a, t, c, IsWhiteSpace);
  }

  /** The scoped form, by position: letters up to `t`, `(` at `t`, scope
      characters up to `e`, `)` at `e`, white space up to `c`, a colon at
      `c`. */
  lemma LooksScoped(a: string, t: nat, e: nat, c: nat)
    requires 0 < t < e < c < |a| && a[t] == '(' && a[e] == ')' && a[c] == ':'
    requires forall k :: 0 <= k < t ==> IsLower(a[k])
    requires forall k :: t < k < e ==> IsSortScopeChar(a[k])
    requires forall k :: e < k < c ==> IsWhiteSpace(a[k])
    ensures LooksConventional(a)
  {
    SpanOfClass(a, 0, t, IsLower);
    SpanOfClass(a, t + 1, e, IsSortScopeChar);
    SpanOfClass(a, e + 1, c, IsWhiteSpace);
    assert !ColonAfterSpace(a, t);
  }

  /** A message that does not start with a lower-case letter never looks
      conventional. */
  lemma NotLowerNotConventional(a: string)
    requires |a| == 0 || !IsLower(a[0])
    ensures !LooksConventional(a)
  {
  }
}

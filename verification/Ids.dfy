/** Ids of a document: which are taken, and the first free one. */
module Ids {

  /** An element without an id attribute reads as having the id "". */
  datatype Element = Element(tag: string, id: string, children: seq<Element>)

  function DescendantIds(children: seq<Element>): set<string>
    decreases children
  {
    if children == [] then {}
    else {children[0].id} + DescendantIds(children[0].children) + DescendantIds(children[1..])
  }

  function SectionIds(sections: seq<Element>): set<string> {
    if sections == [] then {}
    else (if sections[0].tag == "status" then {} else DescendantIds(sections[0].children)) + SectionIds(sections[1..])
  }

  /** The ids that count: in a CIB those inside its sections, except the status section; else all of them. */
  function TakenIds(documentElement: Element): set<string> {
    if documentElement.tag == "cib" then SectionIds(documentElement.children)
    else {documentElement.id} + DescendantIds(documentElement.children)
  }

  /** The element has the id, or one somewhere inside it does. */
  predicate Holds(e: Element, id: string) {
    e.id == id || exists c <- e.children :: Holds(c, id)
  }

  /** In a CIB: an element inside one of its sections other than status. Else any element. */
  predicate IsUsed(documentElement: Element, id: string) {
    if documentElement.tag == "cib" then
      exists s <- documentElement.children :: s.tag != "status" && exists c <- s.children :: Holds(c, id)
    else Holds(documentElement, id)
  }

  lemma {:induction false} DescendantIdsMean(children: seq<Element>, id: string)
    ensures id in DescendantIds(children) <==> exists c <- children :: Holds(c, id)
    decreases children
  {
    if children != [] {
      assert forall c :: c in children <==> c == children[0] || c in children[1..];
      DescendantIdsMean(children[0].children, id);
      DescendantIdsMean(children[1..], id);
      assert Holds(children[0], id) <==> id in {children[0].id} + DescendantIds(children[0].children);
    }
  }

  lemma {:induction false} SectionIdsMean(sections: seq<Element>, id: string)
    ensures id in SectionIds(sections) <==>
      exists s <- sections :: s.tag != "status" && exists c <- s.children :: Holds(c, id)
  {
    if sections != [] {
      assert forall s :: s in sections <==> s == sections[0] || s in sections[1..];
      DescendantIdsMean(sections[0].children, id);
      SectionIdsMean(sections[1..], id);
    }
  }

  lemma TakenIdsMean(documentElement: Element, id: string)
    ensures id in TakenIds(documentElement) <==> IsUsed(documentElement, id)
  {
    SectionIdsMean(documentElement.children, id);
    DescendantIdsMean(documentElement.children, id);
  }

  method DoesIdExist(documentElement: Element, checkId: string) returns (taken: bool)
    ensures taken <==> checkId in TakenIds(documentElement)
    ensures taken <==> IsUsed(documentElement, checkId)
  {
    TakenIdsMean(documentElement, checkId);
    if documentElement.tag == "cib" {
      var sections := documentElement.children;
      assert sections[0..] == sections;
      for i := 0 to |sections|
        invariant checkId in SectionIds(sections) <==> checkId in SectionIds(sections[i..])
      {
        assert sections[i..][1..] == sections[i + 1..];
        if sections[i].tag == "status" {
          continue;
        }
        if checkId in DescendantIds(sections[i].children) {
          return true;
        }
      }
      return false;
    }
    taken := documentElement.id == checkId || checkId in DescendantIds(documentElement.children);
  }

  // ----- decimal suffixes ----------------------------------------------------

  const DIGITS := "0123456789"

  function Decimal(n: nat): string {
    if n < 10 then [DIGITS[n]] else Decimal(n / 10) + [DIGITS[n % 10]]
  }

  /** Digit after digit, the last one the remainder by ten. */
  lemma DecimalMeans(n: nat)
    ensures Decimal(n) == (if n < 10 then "" else Decimal(n / 10)) + [('0' as int + n % 10) as char]
  {
  }

  function DigitValue(c: char): nat {
    if '0' <= c <= '9' then (c as int) - ('0' as int) else 0
  }

  function Value(s: string): nat {
    if s == "" then 0 else 10 * Value(s[..|s| - 1]) + DigitValue(s[|s| - 1])
  }

  lemma {:induction false} ValueOfDecimal(n: nat)
    ensures Value(Decimal(n)) == n
  {
    if n < 10 {
      assert [] + [DIGITS[n]] == [DIGITS[n]];
      ValueSnoc([], n);
    } else {
      ValueOfDecimal(n / 10);
      ValueSnoc(Decimal(n / 10), n % 10);
    }
  }

  lemma ValueSnoc(s: string, digit: nat)
    requires digit < 10
    ensures Value(s + [DIGITS[digit]]) == 10 * Value(s) + digit
  {
    assert (s + [DIGITS[digit]])[..|s|] == s;
  }

  /** The ids that are tried, in turn. */
  function Candidate(checkId: string, k: nat): string {
    if k == 0 then checkId else checkId + "-" + Decimal(k)
  }

  lemma CandidatesDiffer(checkId: string, j: nat, k: nat)
    requires Candidate(checkId, j) == Candidate(checkId, k)
    ensures j == k
  {
    ValueOfDecimal(j);
    ValueOfDecimal(k);
    var stem := checkId + "-";
    assert j > 0 ==> |Candidate(checkId, j)| > |checkId|;
    assert k > 0 ==> |Candidate(checkId, k)| > |checkId|;
    if j > 0 && k > 0 {
      assert Candidate(checkId, j)[|stem|..] == Decimal(j);
      assert Candidate(checkId, k)[|stem|..] == Decimal(k);
    }
  }

  // ----- the first free id ---------------------------------------------------

  /** `m` is the place of the first candidate from `k` on that is not taken. */
  ghost predicate FirstFree(taken: set<string>, checkId: string, k: nat, m: nat) {
    && k <= m && Candidate(checkId, m) !in taken
    && forall j | k <= j < m :: Candidate(checkId, j) in taken
  }

  /** The search; a candidate that is taken cannot come up again, so it may be forgotten. */
  function UniqueFrom(taken: set<string>, checkId: string, k: nat): string
    decreases taken
  {
    var id := Candidate(checkId, k);
    if id !in taken then id else UniqueFrom(taken - {id}, checkId, k + 1)
  }

  function FindUnique(taken: set<string>, checkId: string): string {
    UniqueFrom(taken, checkId, 0)
  }

  /** The search ends after at most one probe per taken id and one more, at the first free candidate. */
  lemma {:induction false} UniqueFromIsFirstFree(taken: set<string>, checkId: string, k: nat) returns (m: nat)
    ensures UniqueFrom(taken, checkId, k) == Candidate(checkId, m)
    ensures FirstFree(taken, checkId, k, m) && m - k <= |taken|
    decreases taken
  {
    var id := Candidate(checkId, k);
    if id !in taken {
      m := k;
    } else {
      m := UniqueFromIsFirstFree(taken - {id}, checkId, k + 1);
      OneMoreTaken(taken, checkId, k, m);
      assert |taken - {id}| == |taken| - 1;
    }
  }

  /** A candidate that is taken does not come up again. */
  lemma OneMoreTaken(taken: set<string>, checkId: string, k: nat, m: nat)
    requires Candidate(checkId, k) in taken && FirstFree(taken - {Candidate(checkId, k)}, checkId, k + 1, m)
    ensures FirstFree(taken, checkId, k, m)
  {
    if Candidate(checkId, m) == Candidate(checkId, k) {
      CandidatesDiffer(checkId, m, k);
    }
  }

  lemma FindUniqueIsFree(taken: set<string>, checkId: string)
    ensures FindUnique(taken, checkId) !in taken
    ensures checkId !in taken ==> FindUnique(taken, checkId) == checkId
    ensures |FindUnique(taken, checkId)| >= |checkId| && checkId <= FindUnique(taken, checkId)
  {
    var m := UniqueFromIsFirstFree(taken, checkId, 0);
    assert checkId <= Candidate(checkId, m);
  }

  /** A first free place is the only one. */
  lemma FirstFreeIsUnique(taken: set<string>, checkId: string, m: nat)
    requires FirstFree(taken, checkId, 0, m)
    ensures Candidate(checkId, m) == FindUnique(taken, checkId)
  {
    var n := UniqueFromIsFirstFree(taken, checkId, 0);
    assert m == n;
  }

  /** The id itself if it is free, or else it with the least number, counted from one, that makes it free. */
  lemma FindUniqueMeans(taken: set<string>, checkId: string) returns (k: nat)
    ensures k == 0 <==> checkId !in taken
    ensures FindUnique(taken, checkId) == if k == 0 then checkId else checkId + "-" + Decimal(k)
    ensures k > 0 ==> checkId + "-" + Decimal(k) !in taken
    ensures forall j | 1 <= j < k :: checkId + "-" + Decimal(j) in taken
  {
    k := UniqueFromIsFirstFree(taken, checkId, 0);
    assert Candidate(checkId, 0) == checkId;
    forall j | 1 <= j < k ensures checkId + "-" + Decimal(j) in taken {
      assert Candidate(checkId, j) in taken;
    }
  }

  function Tried(checkId: string, n: nat): set<string> {
    set j | 0 <= j < n :: Candidate(checkId, j)
  }

  /** Distinct suffixes: as many candidates tried as probes made, and no more than are taken. */
  lemma {:induction false} TriedCount(checkId: string, n: nat)
    ensures |Tried(checkId, n)| == n
  {
    if n > 0 {
      TriedCount(checkId, n - 1);
      LastIsNew(checkId, n - 1);
      TriedSnoc(checkId, n - 1);
    }
  }

  lemma TriedSnoc(checkId: string, n: nat)
    ensures Tried(checkId, n + 1) == Tried(checkId, n) + {Candidate(checkId, n)}
  {
  }

  lemma LastIsNew(checkId: string, n: nat)
    ensures Candidate(checkId, n) !in Tried(checkId, n)
  {
    if Candidate(checkId, n) in Tried(checkId, n) {
      var j :| 0 <= j < n && Candidate(checkId, j) == Candidate(checkId, n);
      CandidatesDiffer(checkId, j, n);
    }
  }

  lemma TriedWithin(checkId: string, n: nat, taken: set<string>)
    requires forall j | 0 <= j < n :: Candidate(checkId, j) in taken
    ensures n <= |taken|
  {
    TriedCount(checkId, n);
    assert Tried(checkId, n) <= taken;
    assert |taken - Tried(checkId, n)| == |taken| - n;
  }

  method FindUniqueId(documentElement: Element, checkId: string) returns (tempId: string, ghost probes: nat)
    ensures tempId == FindUnique(TakenIds(documentElement), checkId)
    ensures tempId !in TakenIds(documentElement)
    ensures probes <= |TakenIds(documentElement)| + 1
  {
    var counter := 1;
    tempId := checkId;
    ghost var taken := TakenIds(documentElement);
    var found := DoesIdExist(documentElement, tempId);
    while found
      invariant counter >= 1 && tempId == Candidate(checkId, counter - 1)
      invariant found <==> tempId in taken
      invariant forall j | 0 <= j < counter - 1 :: Candidate(checkId, j) in taken
      decreases |taken| - counter
    {
      TriedWithin(checkId, counter, taken);
      tempId := checkId + "-" + Decimal(counter);
      counter := counter + 1;
      found := DoesIdExist(documentElement, tempId);
    }
    TriedWithin(checkId, counter - 1, taken);
    probes := counter;
    assert FirstFree(taken, checkId, 0, counter - 1);
    FirstFreeIsUnique(taken, checkId, counter - 1);
  }
}

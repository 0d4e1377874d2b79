/**
 * Values shared by both versions of the per-game state object
 * (models/TriviaGame.ts and models/TriviaGame.js) and by the socket
 * dispatcher (socket.js): identifiers, questions, the reply to an answer,
 * and the JavaScript array operations those files are built from.
 */
module Common {

  datatype Option<+T> = None | Some(value: T)

  /** User ids come from the clients; game ids are generated by the server. */
  type UserId = string
  type GameId = string

  datatype Question = Question(
    id: string,
    text: string,
    correctAnswer: string,
    incorrectAnswers: seq<string>,
    category: string,
    difficulty: string)

  /** `gameState.status`: 'waiting' | 'active' | 'completed'. */
  datatype Status = Waiting | Active | Completed

  /** The errors an `answer_result` reply can carry. */
  datatype AnswerError =
    | PlayerNotFound
    | AlreadyAnswered
    | GameNotFound
      /** `submitAnswer` before `startGame` dereferences a null question and throws a TypeError. */
    | NoCurrentQuestion
  {
    function Message(): string {
      match this
      case PlayerNotFound => "Player not found"
      case AlreadyAnswered => "Already answered"
      case GameNotFound => "Game not found"
      case NoCurrentQuestion => "Cannot read properties of null (reading 'correctAnswer')"
    }
  }

  /** `{ isCorrect, pointsEarned, error? }`, the reply to one answer submission. */
  datatype AnswerResult = AnswerResult(isCorrect: bool, pointsEarned: nat, error: Option<AnswerError>)

  /** Every rejected submission is answered with `isCorrect: false, pointsEarned: 0`. */
  function Rejection(e: AnswerError): AnswerResult {
    AnswerResult(false, 0, Some(e))
  }

  /** `Array.prototype.findIndex`: the first index whose element satisfies `p`, if any. */
  function FindIndex<T>(s: seq<T>, p: T -> bool): (r: Option<nat>)
    ensures r.Some? ==> r.value < |s| && p(s[r.value])
    ensures r.Some? ==> forall k :: 0 <= k < r.value ==> !p(s[k])
    ensures r.None? ==> forall k :: 0 <= k < |s| ==> !p(s[k])
  {
    if s == [] then None
    else if p(s[0]) then Some(0)
    else match FindIndex(s[1..], p)
      case None => None
      case Some(k) => Some(k + 1)
  }

  /** `Array.prototype.find`: the first element that satisfies `p`, if any. */
  function Find<T>(s: seq<T>, p: T -> bool): (r: Option<T>)
    ensures r.Some? <==> exists k :: 0 <= k < |s| && p(s[k])
    ensures r.Some? ==> FindIndex(s, p).Some? && r.value == s[FindIndex(s, p).value]
  {
    match FindIndex(s, p)
    case None => None
    case Some(k) => Some(s[k])
  }

  /** `Array.prototype.filter`: the passing elements; the first passing one comes first. */
  function Filter<T>(s: seq<T>, p: T -> bool): (r: seq<T>)
    ensures |r| <= |s|
    ensures forall k :: 0 <= k < |r| ==> p(r[k]) && r[k] in s
    ensures forall k :: 0 <= k < |s| && p(s[k]) ==> s[k] in r
    ensures r != [] ==> FindIndex(s, p).Some? && r[0] == s[FindIndex(s, p).value]
  {
    if s == [] then []
    else (if p(s[0]) then [s[0]] else []) + Filter(s[1..], p)
  }

  /** Filtering a sequence with a known head. */
  lemma FilterCons<T>(y: T, t: seq<T>, p: T -> bool)
    ensures Filter([y] + t, p) == (if p(y) then [y] else []) + Filter(t, p)
  {
    assert ([y] + t)[0] == y && ([y] + t)[1..] == t;
  }

  lemma AppendAssoc<T>(x: seq<T>, y: seq<T>, z: seq<T>)
    ensures x + (y + z) == (x + y) + z
  {
  }

  /** `filter` keeps the input order: filtering a concatenation concatenates the filtered parts. */
  lemma {:induction false} FilterAppend<T>(a: seq<T>, b: seq<T>, p: T -> bool)
    ensures Filter(a + b, p) == Filter(a, p) + Filter(b, p)
  {
    if a != [] {
      var head := if p(a[0]) then [a[0]] else [];
      assert a + b == [a[0]] + (a[1..] + b);
      FilterCons(a[0], a[1..] + b, p);
      FilterAppend(a[1..], b, p);
      assert Filter(a, p) == head + Filter(a[1..], p);
      AppendAssoc(head, Filter(a[1..], p), Filter(b, p));
    } else {
      assert a + b == b;
    }
  }

  /** `filter` keeps each passing element as often as the input holds it, and drops the others. */
  lemma {:induction false} FilterCount<T>(s: seq<T>, p: T -> bool, x: T)
    ensures multiset(Filter(s, p))[x] == if p(x) then multiset(s)[x] else 0
  {
    if s != [] {
      var head := if p(s[0]) then [s[0]] else [];
      FilterCount(s[1..], p, x);
      assert s == [s[0]] + s[1..];
      assert multiset(Filter(s, p)) == multiset(head) + multiset(Filter(s[1..], p));
    }
  }

  /** Filtering twice is filtering once by both tests. */
  lemma {:induction false} FilterFilter<T>(s: seq<T>, p: T -> bool, q: T -> bool, pq: T -> bool)
    requires forall x :: pq(x) == (p(x) && q(x))
    ensures Filter(Filter(s, p), q) == Filter(s, pq)
  {
    if s != [] {
      FilterFilter(s[1..], p, q, pq);
      FilterAppend(if p(s[0]) then [s[0]] else [], Filter(s[1..], p), q);
    }
  }

  /** `Array.prototype.map`. */
  function MapSeq<T, U>(s: seq<T>, f: T -> U): (r: seq<U>)
    ensures |r| == |s|
    ensures forall k {:trigger r[k]} :: 0 <= k < |s| ==> r[k] == f(s[k])
  {
    if s == [] then [] else [f(s[0])] + MapSeq(s[1..], f)
  }

  lemma MapSeqCons<T, U>(y: T, s: seq<T>, f: T -> U)
    ensures MapSeq([y] + s, f) == [f(y)] + MapSeq(s, f)
  {
    assert ([y] + s)[1..] == s;
  }

  /** Filtering after a mapping is mapping after the matching filter. */
  lemma {:induction false} FilterMapSeq<T, U>(s: seq<T>, f: T -> U, p: T -> bool, q: U -> bool)
    requires forall x :: q(f(x)) == p(x)
    ensures Filter(MapSeq(s, f), q) == MapSeq(Filter(s, p), f)
  {
    if s != [] {
      var rest := Filter(s[1..], p);
      FilterMapSeq(s[1..], f, p, q);
      assert MapSeq(s, f) == [f(s[0])] + MapSeq(s[1..], f);
      FilterCons(f(s[0]), MapSeq(s[1..], f), q);
      if p(s[0]) {
        assert Filter(s, p) == [s[0]] + rest;
        MapSeqCons(s[0], rest, f);
      } else {
        assert Filter(s, p) == [] + rest;
        assert [] + rest == rest;
      }
    }
  }

  predicate NoDup<T(==)>(s: seq<T>) {
    forall i, j :: 0 <= i < j < |s| ==> s[i] != s[j]
  }

  /** The position of the first occurrence of `x` in `s`. */
  function FirstIndex<T(==)>(s: seq<T>, x: T): (r: nat)
    requires x in s
    ensures r < |s| && s[r] == x
    ensures forall k :: 0 <= k < |s| && s[k] == x ==> r <= k
  {
    if s[0] == x then 0 else 1 + FirstIndex(s[1..], x)
  }

  /** An element of a prefix has its first occurrence in that prefix. */
  lemma FirstIndexPrefix<T>(s: seq<T>, m: nat, x: T)
    requires m <= |s| && x in s[..m]
    ensures FirstIndex(s, x) == FirstIndex(s[..m], x)
  {
    var i := FirstIndex(s[..m], x);
    var j := FirstIndex(s, x);
    assert s[i] == x;
    assert j <= i && s[..m][j] == x;
  }

  /*
   * A JavaScript `Map` keeps its keys in insertion order. The model keeps a
   * `map` for the entries and a duplicate-free `seq` for the key order.
   */

  /** Key order after `set(k, _)`: a new key goes last, an existing key keeps its place. */
  function OrderSet<T(==,!new)>(order: seq<T>, k: T): (r: seq<T>)
    ensures forall x :: x in r <==> x in order || x == k
    ensures NoDup(order) ==> NoDup(r)
    ensures k in order ==> r == order
    ensures k !in order ==> r == order + [k]
  {
    if k in order then order else order + [k]
  }

  /** Key order after `delete(k)`: the key drops out and the others keep their relative order. */
  function OrderDelete<T(==,!new)>(order: seq<T>, k: T): (r: seq<T>)
    ensures forall x :: x in r <==> x in order && x != k
    ensures NoDup(order) ==> NoDup(r)
    ensures k !in order ==> r == order
  {
    if order == [] then []
    else
      var rest := OrderDelete(order[1..], k);
      assert NoDup(order) ==> order[0] !in order[1..];
      assert order == [order[0]] + order[1..];
      (if order[0] == k then [] else [order[0]]) + rest
  }

  /** With the key at position `i` of a duplicate-free order, `delete` cuts out exactly that position. */
  lemma OrderDeleteAt<T(!new)>(order: seq<T>, k: T, i: nat)
    requires NoDup(order) && i < |order| && order[i] == k
    ensures OrderDelete(order, k) == order[..i] + order[i + 1..]
  {
    var before, after := order[..i], order[i + 1..];
    SplitAround(order, i);
    var ne := (x: T) => x != k;
    FilterAll(before, ne);
    FilterAll(after, ne);
    assert Filter([k], ne) == [] by {
      assert [k][1..] == [];
    }
    calc {
      OrderDelete(order, k);
      { OrderDeleteFilters(order, k, ne); }
      Filter(order, ne);
      Filter(before + ([k] + after), ne);
      { FilterAppend(before, [k] + after, ne); }
      Filter(before, ne) + Filter([k] + after, ne);
      { FilterAppend([k], after, ne); }
      before + ([] + after);
      { assert [] + after == after; }
      before + after;
    }
  }

  /** A duplicate-free sequence splits around position `i` into two parts without `s[i]`. */
  lemma SplitAround<T>(s: seq<T>, i: nat)
    requires NoDup(s) && i < |s|
    ensures s == s[..i] + ([s[i]] + s[i + 1..])
    ensures s[i] !in s[..i] && s[i] !in s[i + 1..]
  {
    var after := s[i + 1..];
    assert forall j :: 0 <= j < |after| ==> after[j] == s[i + 1 + j];
  }

  /** `OrderDelete` is the filter that drops `k`. */
  lemma {:induction false} OrderDeleteFilters<T(!new)>(order: seq<T>, k: T, ne: T -> bool)
    requires forall x :: ne(x) == (x != k)
    ensures OrderDelete(order, k) == Filter(order, ne)
  {
    if order != [] {
      OrderDeleteFilters(order[1..], k, ne);
    }
  }

  /** `ks.forEach(k => m.set(k, v))`. */
  function SetEach<K(==,!new), V>(m: map<K, V>, ks: seq<K>, v: V): (r: map<K, V>)
    ensures forall x :: x in r <==> x in m || x in ks
    ensures forall x :: x in r ==> r[x] == if x in ks then v else m[x]
  {
    if ks == [] then m
    else
      var last := ks[|ks| - 1];
      assert ks == ks[..|ks| - 1] + [last];
      SetEach(m, ks[..|ks| - 1], v)[last := v]
  }

  /**
   * Key order after `ks.forEach(k => m.set(k, _))`: the old keys keep their
   * places, and the new keys follow them in the order `ks` first lists them.
   */
  function OrderSetEach<T(==,!new)>(order: seq<T>, ks: seq<T>): (r: seq<T>)
    ensures forall x :: x in r <==> x in order || x in ks
    ensures NoDup(order) ==> NoDup(r)
    ensures |order| <= |r| && r[..|order|] == order
    ensures forall i :: |order| <= i < |r| ==> r[i] in ks && r[i] !in order
    ensures forall i, j :: |order| <= i < j < |r| ==> FirstIndex(ks, r[i]) < FirstIndex(ks, r[j])
  {
    if ks == [] then order
    else
      var init := ks[..|ks| - 1];
      var last := ks[|ks| - 1];
      assert ks == init + [last];
      var before := OrderSetEach(order, init);
      OrderSetLast(order, ks, before);
      OrderSet(before, last)
  }

  /** One more `set` at the end of `ks` keeps the order facts of `OrderSetEach`. */
  lemma OrderSetLast<T(!new)>(order: seq<T>, ks: seq<T>, before: seq<T>)
    requires ks != []
    requires forall x :: x in before <==> x in order || x in ks[..|ks| - 1]
    requires |order| <= |before| && before[..|order|] == order
    requires forall i :: |order| <= i < |before| ==> before[i] in ks[..|ks| - 1] && before[i] !in order
    requires forall i, j :: |order| <= i < j < |before| ==>
               FirstIndex(ks[..|ks| - 1], before[i]) < FirstIndex(ks[..|ks| - 1], before[j])
    ensures var r := OrderSet(before, ks[|ks| - 1]);
            && |order| <= |r| && r[..|order|] == order
            && (forall i :: |order| <= i < |r| ==> r[i] in ks && r[i] !in order)
            && (forall i, j :: |order| <= i < j < |r| ==> FirstIndex(ks, r[i]) < FirstIndex(ks, r[j]))
  {
    var init := ks[..|ks| - 1];
    var last := ks[|ks| - 1];
    assert ks == init + [last];
    forall i | |order| <= i < |before| ensures FirstIndex(ks, before[i]) == FirstIndex(init, before[i]) {
      FirstIndexPrefix(ks, |ks| - 1, before[i]);
    }
    if last !in before {
      assert last !in init;
      assert FirstIndex(ks, last) == |ks| - 1;
      var r := before + [last];
      assert r[..|order|] == order;
    }
  }

  /** `ks.forEach(k => m.delete(k))`. */
  function DeleteEach<K(==,!new), V>(m: map<K, V>, ks: seq<K>): (r: map<K, V>)
    ensures forall x :: x in r <==> x in m && x !in ks
    ensures forall x :: x in r ==> r[x] == m[x]
  {
    if ks == [] then m
    else
      var last := ks[|ks| - 1];
      assert ks == ks[..|ks| - 1] + [last];
      DeleteEach(m, ks[..|ks| - 1]) - {last}
  }

  /** Key order after `ks.forEach(k => m.delete(k))`: the old order with every listed key filtered out. */
  function OrderDeleteEach<T(==,!new)>(order: seq<T>, ks: seq<T>): (r: seq<T>)
    ensures forall x :: x in r <==> x in order && x !in ks
    ensures NoDup(order) ==> NoDup(r)
    ensures r == Filter(order, (x: T) => x !in ks)
  {
    if ks == [] then
      assert Filter(order, (x: T) => x !in ks) == order by {
        FilterAll(order, (x: T) => x !in ks);
      }
      order
    else
      var init := ks[..|ks| - 1];
      var last := ks[|ks| - 1];
      assert ks == init + [last];
      var before := OrderDeleteEach(order, init);
      OrderDeleteFilters(before, last, (x: T) => x != last);
      FilterFilter(order, (x: T) => x !in init, (x: T) => x != last, (x: T) => x !in ks);
      OrderDelete(before, last)
  }

  /** A filter that every element passes keeps the whole sequence. */
  lemma {:induction false} FilterAll<T>(s: seq<T>, p: T -> bool)
    requires forall k :: 0 <= k < |s| ==> p(s[k])
    ensures Filter(s, p) == s
  {
    if s != [] {
      FilterAll(s[1..], p);
    }
  }

  /** The ten built-in questions both versions fall back on. */
  function PlaceholderQuestions(): seq<Question> {
    [
      Question("1", "What is the capital of France?", "Paris",
               ["London", "Berlin", "Madrid"], "Geography", "easy"),
      Question("2", "Which planet is known as the Red Planet?", "Mars",
               ["Venus", "Jupiter", "Mercury"], "Science", "easy"),
      Question("3", "Who painted the Mona Lisa?", "Leonardo da Vinci",
               ["Pablo Picasso", "Vincent van Gogh", "Michelangelo"], "Art", "easy"),
      Question("4", "What is the largest ocean on Earth?", "Pacific Ocean",
               ["Atlantic Ocean", "Indian Ocean", "Arctic Ocean"], "Geography", "easy"),
      Question("5", "In which year did World War II end?", "1945",
               ["1939", "1941", "1950"], "History", "medium"),
      Question("6", "Which element has the chemical symbol \"O\"?", "Oxygen",
               ["Gold", "Silver", "Iron"], "Science", "easy"),
      Question("7", "What is the capital of Japan?", "Tokyo",
               ["Beijing", "Seoul", "Bangkok"], "Geography", "easy"),
      Question("8", "Who wrote \"Romeo and Juliet\"?", "William Shakespeare",
               ["Charles Dickens", "Jane Austen", "Mark Twain"], "Literature", "easy"),
      Question("9", "What is the tallest mountain in the world?", "Mount Everest",
               ["K2", "Kangchenjunga", "Makalu"], "Geography", "easy"),
      Question("10", "Which country is known as the Land of the Rising Sun?", "Japan",
               ["China", "South Korea", "Vietnam"], "Geography", "easy")
    ]
  }
}

/** The elastic graph draft: cards pushed aside while one card is held, and the sorted sweep that finds the
    overlaps. Arithmetic is over the reals. */
module GraphMotions {
  import opened Results
  import opened Collections

  datatype Point = Point(x: real, y: real)

  datatype Body = Body(key: string, width: real, height: real)

  datatype Box = Box(body: Body, left: real)

  /** What a collision does: a step pushes both cards, a snap moves them apart at once. */
  datatype Resolution = Impulse | Separate

  type Positions = map<string, Point>

  const PADDING := 14.0
  const MAX_STEPS := 180
  const PAIR_BUDGET := 50_000
  const BOUND := 10_000_000.0
  const SNAP_PASSES := 16

  function Abs(x: real): real {
    if x < 0.0 then -x else x
  }

  function Max(x: real, y: real): real {
    if x < y then y else x
  }

  /** The amount with the sign of a distance, where none counts as positive. */
  function Along(distance: real, amount: real): real {
    if distance < 0.0 then -amount else amount
  }

  function Bounded(value: real): (r: real)
    ensures -BOUND <= r <= BOUND
    ensures -BOUND <= value <= BOUND ==> r == value
  {
    if value < -BOUND then -BOUND else if value > BOUND then BOUND else value
  }

  predicate ValidCoordinate(value: real) {
    Abs(value) <= BOUND
  }

  predicate ValidPoint(point: Point) {
    ValidCoordinate(point.x) && ValidCoordinate(point.y)
  }

  // ----- when cards overlap -----

  function OverlapX(p: Point, q: Point, a: Body, b: Body): real {
    (a.width + b.width) / 2.0 + 2.0 * PADDING - Abs(q.x - p.x)
  }

  function OverlapY(p: Point, q: Point, a: Body, b: Body): real {
    (a.height + b.height) / 2.0 + 2.0 * PADDING - Abs(q.y - p.y)
  }

  predicate Overlap(p: Point, q: Point, a: Body, b: Body) {
    OverlapX(p, q, a, b) > 0.0 && OverlapY(p, q, a, b) > 0.0
  }

  ghost predicate Known(bodies: seq<Body>, positions: Positions) {
    && (forall i, j | 0 <= i < j < |bodies| :: bodies[i].key != bodies[j].key)
    && (forall body <- bodies :: body.key in positions)
  }

  /** The all-pairs test: two different cards that overlap. */
  ghost predicate Touch(bodies: seq<Body>, positions: Positions, k: string, l: string)
    requires Known(bodies, positions)
  {
    exists a <- bodies, b <- bodies :: a.key == k && b.key == l && k != l && Overlap(positions[k], positions[l], a, b)
  }

  lemma SameBody(bodies: seq<Body>, a: Body, b: Body)
    requires forall i, j | 0 <= i < j < |bodies| :: bodies[i].key != bodies[j].key
    requires a in bodies && b in bodies && a.key == b.key
    ensures a == b
  {
    var i :| 0 <= i < |bodies| && bodies[i] == a;
    var j :| 0 <= j < |bodies| && bodies[j] == b;
  }

  lemma TouchIs(bodies: seq<Body>, positions: Positions, a: Body, b: Body)
    requires Known(bodies, positions) && a in bodies && b in bodies
    ensures Touch(bodies, positions, a.key, b.key) <==> a.key != b.key && Overlap(positions[a.key], positions[b.key], a, b)
    ensures Touch(bodies, positions, a.key, b.key) <==> Touch(bodies, positions, b.key, a.key)
  {
    if Touch(bodies, positions, a.key, b.key) || Touch(bodies, positions, b.key, a.key) {
      forall other <- bodies
        ensures other.key == a.key ==> other == a
        ensures other.key == b.key ==> other == b
      {
        if other.key == a.key { SameBody(bodies, a, other); }
        if other.key == b.key { SameBody(bodies, b, other); }
      }
    }
  }

  lemma TouchedBodies(bodies: seq<Body>, positions: Positions, k: string, l: string) returns (a: Body, b: Body)
    requires Known(bodies, positions) && Touch(bodies, positions, k, l)
    ensures a in bodies && b in bodies && a.key == k && b.key == l && k != l
    ensures Overlap(positions[k], positions[l], a, b) && Touch(bodies, positions, l, k)
  {
    a, b :| a in bodies && b in bodies && a.key == k && b.key == l && k != l && Overlap(positions[k], positions[l], a, b);
    TouchIs(bodies, positions, a, b);
  }

  // ----- the sorted boxes -----

  ghost predicate SortedBoxes(boxes: seq<Box>) {
    forall i, j | 0 <= i < j < |boxes| :: boxes[i].left <= boxes[j].left
  }

  /** A stable sort by left edge. */
  function InsertBox(boxes: seq<Box>, box: Box): (r: seq<Box>)
    ensures |r| == |boxes| + 1
    ensures forall other :: other in r <==> other == box || other in boxes
  {
    if boxes == [] then [box]
    else
      assert boxes == boxes[..|boxes| - 1] + [boxes[|boxes| - 1]];
      if box.left < boxes[|boxes| - 1].left then InsertBox(boxes[..|boxes| - 1], box) + [boxes[|boxes| - 1]]
      else boxes + [box]
  }

  lemma {:induction false} InsertBoxSorts(boxes: seq<Box>, box: Box)
    requires SortedBoxes(boxes)
    ensures SortedBoxes(InsertBox(boxes, box))
  {
    if boxes != [] && box.left < boxes[|boxes| - 1].left {
      var front, last := boxes[..|boxes| - 1], boxes[|boxes| - 1];
      InsertBoxSorts(front, box);
      var inserted := InsertBox(front, box);
      forall i | 0 <= i < |inserted|
        ensures inserted[i].left <= last.left
      {
        assert inserted[i] in inserted;
      }
    }
  }

  function BoxOf(positions: Positions, body: Body): Box
    requires body.key in positions
  {
    Box(body, positions[body.key].x - body.width / 2.0 - PADDING)
  }

  ghost predicate AreBoxes(boxes: seq<Box>, bodies: seq<Body>, positions: Positions) {
    && Known(bodies, positions) && SortedBoxes(boxes) && |boxes| == |bodies|
    && (forall box <- boxes :: box.body in bodies && box == BoxOf(positions, box.body))
    && (forall body <- bodies :: BoxOf(positions, body) in boxes) && OneEach(boxes)
  }

  /** No card has two boxes. */
  ghost predicate OneEach(boxes: seq<Box>) {
    forall i, j | 0 <= i < j < |boxes| :: boxes[i].body.key != boxes[j].body.key
  }

  lemma {:induction false} InsertBoxOneEach(boxes: seq<Box>, box: Box)
    requires OneEach(boxes) && forall other <- boxes :: other.body.key != box.body.key
    ensures OneEach(InsertBox(boxes, box))
  {
    if boxes != [] && box.left < boxes[|boxes| - 1].left {
      var front, last := boxes[..|boxes| - 1], boxes[|boxes| - 1];
      InsertBoxOneEach(front, box);
      var inserted := InsertBox(front, box);
      forall i | 0 <= i < |inserted|
        ensures inserted[i].body.key != last.body.key
      {
        assert inserted[i] in inserted;
      }
    }
  }

  method SortedBoxesOf(bodies: seq<Body>, positions: Positions) returns (boxes: seq<Box>)
    requires Known(bodies, positions)
    ensures AreBoxes(boxes, bodies, positions)
  {
    boxes := [];
    for k := 0 to |bodies|
      invariant SortedBoxes(boxes) && |boxes| == k
      invariant forall box <- boxes :: box.body in bodies && box == BoxOf(positions, box.body)
      invariant forall body <- bodies[..k] :: BoxOf(positions, body) in boxes
      invariant OneEach(boxes) && forall box <- boxes, i | k <= i < |bodies| :: box.body.key != bodies[i].key
    {
      var box := BoxOf(positions, bodies[k]);
      InsertBoxSorts(boxes, box);
      InsertBoxOneEach(boxes, box);
      boxes := InsertBox(boxes, box);
    }
  }

  /** The width of the widest padded card. */
  function Widest(bodies: seq<Body>): real {
    if bodies == [] then 0.0 else Max(Widest(bodies[..|bodies| - 1]), bodies[|bodies| - 1].width + 2.0 * PADDING)
  }

  lemma {:induction false} WidestIsMaximum(bodies: seq<Body>)
    ensures 0.0 <= Widest(bodies) && forall body <- bodies :: body.width + 2.0 * PADDING <= Widest(bodies)
    ensures Widest(bodies) == 0.0 || exists body <- bodies :: body.width + 2.0 * PADDING == Widest(bodies)
  {
    if bodies != [] {
      var front, last := bodies[..|bodies| - 1], bodies[|bodies| - 1];
      WidestIsMaximum(front);
      assert bodies == front + [last];
    }
  }

  method WidestBox(boxes: seq<Box>, ghost bodies: seq<Body>, ghost positions: Positions) returns (width: real)
    requires AreBoxes(boxes, bodies, positions)
    ensures width == Widest(bodies)
  {
    width := 0.0;
    WidestIsMaximum(bodies);
    for k := 0 to |boxes|
      invariant 0.0 <= width <= Widest(bodies)
      invariant forall box <- boxes[..k] :: box.body.width + 2.0 * PADDING <= width
    {
      assert boxes[k].body in bodies;
      width := Max(width, boxes[k].body.width + 2.0 * PADDING);
    }
    assert boxes[..|boxes|] == boxes;
    if body :| body in bodies && body.width + 2.0 * PADDING == Widest(bodies) {
      assert BoxOf(positions, body) in boxes;
    }
  }

  /** The first box whose left edge is at or past `edge`. */
  method LowerBound(boxes: seq<Box>, edge: real) returns (low: nat)
    requires SortedBoxes(boxes)
    ensures low <= |boxes|
    ensures forall i | 0 <= i < low :: boxes[i].left < edge
    ensures forall i | low <= i < |boxes| :: edge <= boxes[i].left
  {
    low := 0;
    var high := |boxes|;
    while low < high
      invariant low <= high <= |boxes|
      invariant forall i | 0 <= i < low :: boxes[i].left < edge
      invariant forall i | high <= i < |boxes| :: edge <= boxes[i].left
    {
      var mid := (low + high) / 2;
      if boxes[mid].left < edge { low := mid + 1; } else { high := mid; }
    }
  }

  /** A card that overlaps `a` has its box inside the window the sweep looks at. */
  lemma OverlapsAreInWindow(positions: Positions, a: Body, b: Body, widest: real)
    requires a.key in positions && b.key in positions && b.width + 2.0 * PADDING <= widest
    requires Overlap(positions[a.key], positions[b.key], a, b)
    ensures BoxOf(positions, a).left - widest <= BoxOf(positions, b).left <= BoxOf(positions, a).left + a.width + 2.0 * PADDING
  {
  }

  // ----- what a sweep compares -----

  function CardKeys(bodies: seq<Body>): set<string> {
    set body <- bodies :: body.key
  }

  lemma {:induction false} CardsAreAtMost(bodies: seq<Body>)
    ensures |CardKeys(bodies)| <= |bodies|
  {
    if bodies != [] {
      CardsAreAtMost(bodies[1..]);
      assert CardKeys(bodies) == {bodies[0].key} + CardKeys(bodies[1..]);
    }
  }

  /** Multiplication step by step. */
  ghost function Times(count: nat, each: nat): nat {
    if count == 0 then 0 else Times(count - 1, each) + each
  }

  lemma {:induction false} TimesIsProduct(count: nat, each: nat)
    ensures Times(count, each) == count * each
  {
    if count > 0 {
      TimesIsProduct(count - 1, each);
      assert count * each == (count - 1) * each + each;
    }
  }

  lemma {:induction false} TimesGrows(few: nat, many: nat, each: nat)
    requires few <= many
    ensures Times(few, each) <= Times(many, each)
  {
    if few < many {
      TimesGrows(few, many - 1, each);
    }
  }

  /** The sweep of card `a` looks at the box of `b`. */
  predicate InWindow(bodies: seq<Body>, positions: Positions, a: Body, b: Body) {
    && a.key in positions && b.key in positions
    && BoxOf(positions, a).left - Widest(bodies) <= BoxOf(positions, b).left <= BoxOf(positions, a).left + a.width + 2.0 * PADDING
  }

  /** All the comparisons of a sweep over these keys; a card is compared with itself, too. */
  ghost function Compared(bodies: seq<Body>, positions: Positions, keys: set<string>): set<(string, string)> {
    set a <- bodies, b <- bodies | a.key in keys && InWindow(bodies, positions, a, b) :: (a.key, b.key)
  }

  lemma ComparedGrows(bodies: seq<Body>, positions: Positions, few: set<string>, many: set<string>)
    requires few <= many
    ensures |Compared(bodies, positions, few)| <= |Compared(bodies, positions, many)|
  {
    SubsetIsSmaller(Compared(bodies, positions, few), Compared(bodies, positions, many));
  }

  lemma ComparedNext(bodies: seq<Body>, positions: Positions, done: set<string>, key: string)
    requires key !in done
    ensures |Compared(bodies, positions, done + {key})| == |Compared(bodies, positions, done)| + |Compared(bodies, positions, {key})|
  {
    hide InWindow;
    var before, more := Compared(bodies, positions, done), Compared(bodies, positions, {key});
    assert before !! more;
    assert Compared(bodies, positions, done + {key}) == before + more;
  }

  /** The comparisons of one card with some of the boxes. */
  ghost function WindowPairs(boxes: seq<Box>, key: string, low: nat, high: nat): set<(string, string)>
    requires low <= high <= |boxes|
  {
    set i | low <= i < high :: (key, boxes[i].body.key)
  }

  lemma {:induction false} WindowPairsCount(boxes: seq<Box>, key: string, low: nat, high: nat)
    requires OneEach(boxes) && low <= high <= |boxes|
    ensures |WindowPairs(boxes, key, low, high)| == high - low
  {
    if low < high {
      WindowPairsCount(boxes, key, low, high - 1);
      assert WindowPairs(boxes, key, low, high) == WindowPairs(boxes, key, low, high - 1) + {(key, boxes[high - 1].body.key)};
    }
  }

  /** Looking at boxes of the window of a card takes that many comparisons, and the whole window all of them. */
  lemma WindowIsCounted(boxes: seq<Box>, bodies: seq<Body>, positions: Positions, a: Box, low: nat, index: nat)
    requires AreBoxes(boxes, bodies, positions) && a in boxes && low <= index <= |boxes|
    requires forall i | low <= i < index :: InWindow(bodies, positions, a.body, boxes[i].body)
    ensures index - low <= |Compared(bodies, positions, {a.body.key})|
    ensures (forall i | 0 <= i < |boxes| && !(low <= i < index) :: !InWindow(bodies, positions, a.body, boxes[i].body))
      ==> index - low == |Compared(bodies, positions, {a.body.key})|
  {
    hide InWindow;
    WindowPairsCount(boxes, a.body.key, low, index);
    var pairs, all := WindowPairs(boxes, a.body.key, low, index), Compared(bodies, positions, {a.body.key});
    assert pairs <= all;
    SubsetIsSmaller(pairs, all);
    if forall i | 0 <= i < |boxes| && !(low <= i < index) :: !InWindow(bodies, positions, a.body, boxes[i].body) {
      forall pair | pair in all
        ensures pair in pairs
      {
        var a', b :| a' in bodies && b in bodies && a'.key == a.body.key && InWindow(bodies, positions, a', b) && pair == (a'.key, b.key);
        SameBody(bodies, a', a.body);
        assert BoxOf(positions, b) in boxes;
      }
      assert pairs == all;
    }
  }

  lemma NotACard(bodies: seq<Body>, positions: Positions, key: string)
    requires key !in CardKeys(bodies)
    ensures Compared(bodies, positions, {key}) == {}
  {
    hide InWindow;
    forall a <- bodies
      ensures a.key != key
    {
      assert a.key in CardKeys(bodies);
    }
  }

  /** One card is compared with each card at most once. */
  lemma ComparedOfOne(bodies: seq<Body>, positions: Positions, key: string)
    ensures |Compared(bodies, positions, {key})| <= |bodies|
  {
    hide InWindow;
    var all := Compared(bodies, positions, {key});
    CardsAreAtMost(bodies);
    PairsWithKey(all, key, CardKeys(bodies));
  }

  lemma {:induction false} PairsWithKey(pairs: set<(string, string)>, key: string, others: set<string>)
    requires forall pair <- pairs :: pair.0 == key && pair.1 in others
    ensures |pairs| <= |others|
  {
    if pairs != {} {
      var pair :| pair in pairs;
      PairsWithKey(pairs - {pair}, key, others - {pair.1});
    }
  }

  lemma {:induction false} ComparedAtMost(bodies: seq<Body>, positions: Positions, keys: set<string>)
    ensures |Compared(bodies, positions, keys)| <= Times(|keys|, |bodies|)
  {
    if keys != {} {
      var key: string :| key in keys;
      ComparedAtMost(bodies, positions, keys - {key});
      ComparedNext(bodies, positions, keys - {key}, key);
      ComparedOfOne(bodies, positions, key);
      assert keys - {key} + {key} == keys;
    } else {
      assert Compared(bodies, positions, {}) == {};
    }
  }

  /** Whatever is affected, a graph of up to 223 cards is swept whole. */
  lemma SmallGraphsFitTheBudget(bodies: seq<Body>, positions: Positions, keys: set<string>)
    requires |bodies| <= 223
    ensures |Compared(bodies, positions, keys)| <= PAIR_BUDGET
  {
    var cards := keys * CardKeys(bodies);
    assert Compared(bodies, positions, keys) == Compared(bodies, positions, cards) by { hide InWindow; }
    ComparedAtMost(bodies, positions, cards);
    CardsAreAtMost(bodies);
    SubsetIsSmaller(cards, CardKeys(bodies));
    TimesGrows(|cards|, 223, |bodies|);
    TimesIsProduct(223, |bodies|);
  }

  /** A sweep over these keys stayed within the budget. */
  ghost predicate Counted(bodies: seq<Body>, positions: Positions, keys: set<string>, compared: nat) {
    compared == |Compared(bodies, positions, keys)| && compared <= PAIR_BUDGET
  }

  // ----- the sweep as a relation between values -----

  /** Unordered pairs of keys. */
  type Pair = set<string>

  /** Each key that was added overlaps a key before it. */
  ghost predicate Chained(bodies: seq<Body>, positions: Positions, from: nat, affected: seq<string>)
    requires Known(bodies, positions)
  {
    forall j | from <= j < |affected| :: exists i | 0 <= i < j :: Touch(bodies, positions, affected[i], affected[j])
  }

  ghost predicate IsTouchingPair(bodies: seq<Body>, positions: Positions, affected: seq<string>, pair: Pair)
    requires Known(bodies, positions)
  {
    exists k, l :: pair == {k, l} && k in affected && Touch(bodies, positions, k, l)
  }

  /** What one sweep does when the cards stay where they are: it resolves only pairs that overlap and have a
      member reached from the affected cards, each once. */
  ghost predicate Sound(bodies: seq<Body>, positions: Positions, before: seq<string>, after: seq<string>, resolved: seq<Pair>) {
    && Known(bodies, positions)
    && before <= after && NoRepeats(resolved)
    && Chained(bodies, positions, |before|, after)
    && (forall pair <- resolved :: IsTouchingPair(bodies, positions, after, pair))
  }

  /** Within the budget it resolves all of them. */
  ghost predicate Exact(bodies: seq<Body>, positions: Positions, before: seq<string>, after: seq<string>, resolved: seq<Pair>) {
    && Sound(bodies, positions, before, after, resolved)
    && (forall k, l | k in after && Touch(bodies, positions, k, l) :: l in after && {k, l} in resolved)
  }

  ghost predicate OverlapClosed(bodies: seq<Body>, positions: Positions, keys: set<string>)
    requires Known(bodies, positions)
  {
    forall k, l | k in keys && Touch(bodies, positions, k, l) :: l in keys
  }

  /** The affected cards after a sweep are the overlap closure of those before it. */
  lemma AffectedIsClosure(bodies: seq<Body>, positions: Positions, before: seq<string>, after: seq<string>, resolved: seq<Pair>)
    requires Exact(bodies, positions, before, after, resolved)
    ensures OverlapClosed(bodies, positions, set key <- after)
    ensures forall closed | OverlapClosed(bodies, positions, closed) && (set key <- before) <= closed :: (set key <- after) <= closed
  {
    forall closed | OverlapClosed(bodies, positions, closed) && (set key <- before) <= closed
      ensures (set key <- after) <= closed
    {
      forall j | 0 <= j < |after|
        ensures after[j] in closed
      {
        ReachedIsInClosed(bodies, positions, before, after, closed, j);
      }
    }
  }

  ghost function TouchedBy(bodies: seq<Body>, positions: Positions, keys: set<string>): set<string>
    requires Known(bodies, positions)
  {
    set body <- bodies | exists k :: k in keys && Touch(bodies, positions, k, body.key) :: body.key
  }

  /** The least set with these keys that no overlap leaves. */
  ghost function Closure(bodies: seq<Body>, positions: Positions, keys: set<string>): (r: set<string>)
    requires Known(bodies, positions)
    ensures keys <= r && OverlapClosed(bodies, positions, r)
    ensures forall closed: set<string> | OverlapClosed(bodies, positions, closed) && keys <= closed :: r <= closed
    decreases CardKeys(bodies) - keys
  {
    hide Touch;
    var more := keys + TouchedBy(bodies, positions, keys);
    TouchedByKeys(bodies, positions, keys);
    if more == keys then keys else Closure(bodies, positions, more)
  }

  lemma TouchedByKeys(bodies: seq<Body>, positions: Positions, keys: set<string>)
    requires Known(bodies, positions)
    ensures forall l :: l in TouchedBy(bodies, positions, keys) <==> exists k :: k in keys && Touch(bodies, positions, k, l)
    ensures TouchedBy(bodies, positions, keys) <= CardKeys(bodies)
  {
    forall k, l | Touch(bodies, positions, k, l)
      ensures exists body <- bodies :: body.key == l
    {
      var a, b := TouchedBodies(bodies, positions, k, l);
    }
  }

  lemma ChainedAt(bodies: seq<Body>, positions: Positions, from: nat, affected: seq<string>, j: nat) returns (i: nat)
    requires Known(bodies, positions) && Chained(bodies, positions, from, affected) && from <= j < |affected|
    ensures i < j && Touch(bodies, positions, affected[i], affected[j])
  {
    var l := affected[j];
    assert exists k | 0 <= k < j :: Touch(bodies, positions, affected[k], l);
    i :| 0 <= i < j && Touch(bodies, positions, affected[i], affected[j]);
  }

  lemma {:induction false} ReachedIsInClosed(bodies: seq<Body>, positions: Positions, before: seq<string>, after: seq<string>, closed: set<string>, j: nat)
    requires Known(bodies, positions) && before <= after && Chained(bodies, positions, |before|, after)
    requires OverlapClosed(bodies, positions, closed) && (set key <- before) <= closed
    requires j < |after|
    ensures after[j] in closed
  {
    if j < |before| {
      assert before[j] == after[j] && before[j] in before;
    } else {
      var i := ChainedAt(bodies, positions, |before|, after, j);
      ReachedIsInClosed(bodies, positions, before, after, closed, i);
    }
  }

  /** A sweep under way. */
  ghost predicate Sweeping(bodies: seq<Body>, positions: Positions, before: seq<string>, affected: seq<string>, visited: set<Pair>, resolved: seq<Pair>) {
    && Known(bodies, positions)
    && before <= affected
    && Chained(bodies, positions, |before|, affected)
    && (forall pair <- resolved :: IsTouchingPair(bodies, positions, affected, pair))
    && (forall k, l | {k, l} in visited && Touch(bodies, positions, k, l) :: k in affected && l in affected && {k, l} in resolved)
  }

  /** The pairs of this card have all been visited. */
  ghost predicate Finished(bodies: seq<Body>, positions: Positions, visited: set<Pair>, key: string)
    requires Known(bodies, positions)
  {
    forall l | Touch(bodies, positions, key, l) :: {key, l} in visited
  }

  function Add(keys: seq<string>, key: string): (r: seq<string>)
    ensures keys <= r && key in r && forall k :: k in r <==> k in keys || k == key
    ensures NoRepeats(keys) ==> NoRepeats(r)
  {
    if key in keys then keys else keys + [key]
  }

  function AddUnlessHeld(keys: seq<string>, held: string, key: string): seq<string> {
    if key == held then keys else Add(keys, key)
  }

  lemma PairMembers(a: string, b: string, k: string, l: string)
    requires {a, b} == {k, l}
    ensures (a == k && b == l) || (a == l && b == k)
  {
    assert a in {k, l} && b in {k, l} && k in {a, b} && l in {a, b};
  }

  lemma StillTouching(bodies: seq<Body>, positions: Positions, affected: seq<string>, more: seq<string>, resolved: seq<Pair>)
    requires Known(bodies, positions) && affected <= more
    requires forall pair <- resolved :: IsTouchingPair(bodies, positions, affected, pair)
    ensures forall pair <- resolved :: IsTouchingPair(bodies, positions, more, pair)
  {
    forall pair <- resolved
      ensures IsTouchingPair(bodies, positions, more, pair)
    {
      var k, l :| pair == {k, l} && k in affected && Touch(bodies, positions, k, l);
      assert k in more;
    }
  }

  lemma VisitOverlapping(bodies: seq<Body>, positions: Positions, before: seq<string>, affected: seq<string>, visited: set<Pair>, resolved: seq<Pair>,
                         a: Body, b: Body)
    requires Sweeping(bodies, positions, before, affected, visited, resolved)
    requires a in bodies && b in bodies && a.key in affected && Touch(bodies, positions, a.key, b.key)
    ensures Sweeping(bodies, positions, before, Add(affected, b.key), visited + {{a.key, b.key}}, resolved + [{a.key, b.key}])
  {
    var more, pair := Add(affected, b.key), {a.key, b.key};
    assert a.key in more && b.key in more;
    StillTouching(bodies, positions, affected, more, resolved);
    assert IsTouchingPair(bodies, positions, more, pair);
    forall j | |before| <= j < |more|
      ensures exists i | 0 <= i < j :: Touch(bodies, positions, more[i], more[j])
    {
      if j < |affected| {
        assert more[j] == affected[j];
        var i :| 0 <= i < j && Touch(bodies, positions, affected[i], affected[j]);
        assert more[i] == affected[i];
      } else {
        var i :| 0 <= i < |affected| && affected[i] == a.key;
        assert more[i] == a.key && more[j] == b.key;
      }
    }
    forall k, l | {k, l} in visited + {pair} && Touch(bodies, positions, k, l)
      ensures k in more && l in more && {k, l} in resolved + [pair]
    {
      if {k, l} == pair {
        PairMembers(a.key, b.key, k, l);
      }
    }
  }

  lemma VisitApart(bodies: seq<Body>, positions: Positions, before: seq<string>, affected: seq<string>, visited: set<Pair>, resolved: seq<Pair>,
                   a: Body, b: Body)
    requires Sweeping(bodies, positions, before, affected, visited, resolved)
    requires a in bodies && b in bodies && !Touch(bodies, positions, a.key, b.key)
    ensures Sweeping(bodies, positions, before, affected, visited + {{a.key, b.key}}, resolved)
  {
    TouchIs(bodies, positions, a, b);
    forall k, l | {k, l} in visited + {{a.key, b.key}} && Touch(bodies, positions, k, l)
      ensures k in affected && l in affected && {k, l} in resolved
    {
      if {k, l} == {a.key, b.key} {
        PairMembers(a.key, b.key, k, l);
      }
    }
  }

  lemma SweepEnds(bodies: seq<Body>, positions: Positions, before: seq<string>, affected: seq<string>, visited: set<Pair>, resolved: seq<Pair>)
    requires Sweeping(bodies, positions, before, affected, visited, resolved) && NoRepeats(resolved)
    requires forall key <- affected :: Finished(bodies, positions, visited, key)
    ensures Exact(bodies, positions, before, affected, resolved)
  {
    forall k, l | k in affected && Touch(bodies, positions, k, l)
      ensures l in affected && {k, l} in resolved
    {
      assert Finished(bodies, positions, visited, k);
    }
  }

  /** Once the window of a card has been looked at, all its overlaps have been. */
  lemma WindowFinishes(boxes: seq<Box>, bodies: seq<Body>, positions: Positions, visited: set<Pair>, a: Body, low: nat, high: nat)
    requires AreBoxes(boxes, bodies, positions) && a in bodies && low <= high <= |boxes|
    requires forall i | 0 <= i < low :: boxes[i].left < BoxOf(positions, a).left - Widest(bodies)
    requires forall i | high <= i < |boxes| :: boxes[i].left > BoxOf(positions, a).left + a.width + 2.0 * PADDING
    requires forall i | low <= i < high && boxes[i].body.key != a.key :: {a.key, boxes[i].body.key} in visited
    ensures Finished(bodies, positions, visited, a.key)
  {
    forall l | Touch(bodies, positions, a.key, l)
      ensures {a.key, l} in visited
    {
      var a', b := TouchedBodies(bodies, positions, a.key, l);
      SameBody(bodies, a, a');
      var box := BoxOf(positions, b);
      var i :| 0 <= i < |boxes| && boxes[i] == box;
      assert box in boxes;
      WidestIsMaximum(bodies);
      OverlapsAreInWindow(positions, a, b, Widest(bodies));
    }
  }

  // ----- how two cards are moved -----

  function Shift(point: Point, horizontal: bool, amount: real): Point {
    if horizontal then Point(point.x + amount, point.y) else Point(point.x, point.y + amount)
  }

  function Clamp(point: Point): Point {
    Point(Bounded(point.x), Bounded(point.y))
  }

  /** Cards move along the axis on which they overlap less. */
  function AlongX(p: Point, q: Point, a: Body, b: Body): bool {
    OverlapX(p, q, a, b) < OverlapY(p, q, a, b)
  }

  function LeastOverlap(p: Point, q: Point, a: Body, b: Body): real {
    if AlongX(p, q, a, b) then OverlapX(p, q, a, b) else OverlapY(p, q, a, b)
  }

  /** How far the second card lies along that axis. */
  function Offset(p: Point, q: Point, a: Body, b: Body): real {
    if AlongX(p, q, a, b) then q.x - p.x else q.y - p.y
  }

  /** How far a snap moves each card that is not held. */
  function Gap(p: Point, q: Point, a: Body, b: Body, held: string): real {
    var distance := LeastOverlap(p, q, a, b) + 0.01;
    if a.key == held || b.key == held then distance else distance / 2.0
  }

  function FirstApart(p: Point, q: Point, a: Body, b: Body, held: string): Point {
    if a.key == held then p else Shift(p, AlongX(p, q, a, b), -Along(Offset(p, q, a, b), Gap(p, q, a, b, held)))
  }

  function SecondApart(p: Point, q: Point, a: Body, b: Body, held: string): Point {
    if b.key == held then q else Shift(q, AlongX(p, q, a, b), Along(Offset(p, q, a, b), Gap(p, q, a, b, held)))
  }

  /** Moved this far, the two cards no longer overlap; the clamp to the bound that follows does not matter as
      long as both points are within it. */
  lemma SeparatedCardsAreApart(p: Point, q: Point, a: Body, b: Body, held: string)
    requires a.key != b.key && Overlap(p, q, a, b)
    ensures
      var p', q' := FirstApart(p, q, a, b, held), SecondApart(p, q, a, b, held);
      && !Overlap(p', q', a, b)
      && (ValidPoint(p') && ValidPoint(q') ==> !Overlap(Clamp(p'), Clamp(q'), a, b))
  {
    var p', q' := FirstApart(p, q, a, b, held), SecondApart(p, q, a, b, held);
    if AlongX(p, q, a, b) {
      assert OverlapX(p', q', a, b) == -0.01;
    } else {
      assert OverlapY(p', q', a, b) == -0.01;
    }
    assert ValidPoint(p') ==> Clamp(p') == p';
    assert ValidPoint(q') ==> Clamp(q') == q';
  }

  /** At the bound the clamp can undo it: two cards in one place there overlap still. */
  lemma CardsAtTheBoundCanOverlap(a: Body, b: Body, held: string)
    requires a.key != b.key && a.width == b.width == 10.0 && a.height == b.height == 20.0 && held != a.key && held != b.key
    ensures
      var corner := Point(BOUND, 0.0);
      && Overlap(corner, corner, a, b)
      && Overlap(Clamp(FirstApart(corner, corner, a, b, held)), Clamp(SecondApart(corner, corner, a, b, held)), a, b)
  {
    var corner := Point(BOUND, 0.0);
    assert OverlapX(corner, corner, a, b) == 38.0 && OverlapY(corner, corner, a, b) == 48.0;
    assert FirstApart(corner, corner, a, b, held) == Point(BOUND - 19.005, 0.0);
    assert SecondApart(corner, corner, a, b, held) == Point(BOUND + 19.005, 0.0);
  }

  function VelocityOf(velocities: map<string, Point>, key: string): Point {
    if key in velocities then velocities[key] else Point(0.0, 0.0)
  }

  /** What a step adds to the velocity of a card. */
  function Pushed(velocities: map<string, Point>, held: string, key: string, horizontal: bool, amount: real): map<string, Point> {
    if key == held then velocities else velocities[key := Shift(VelocityOf(velocities, key), horizontal, amount)]
  }

  /** A spring pulls a card towards the place where it rests. */
  function Sprung(velocity: Point, point: Point, home: Point): Point {
    Point(velocity.x + (home.x - point.x) * 0.055, velocity.y + (home.y - point.y) * 0.055)
  }

  /** Between them: strictly nearer to `home` than `from`, on the same side, unless it is there already. */
  ghost predicate Nearer(from: real, to: real, home: real) {
    if from == home then to == home else Abs(home - to) < Abs(home - from) && (from < home <==> to < home)
  }

  /** A spring points towards the rest place, along both axes, and alone would carry the card nearer without passing it. */
  lemma SpringPointsHome(velocity: Point, point: Point, home: Point)
    ensures
      var sprung := Sprung(velocity, point, home);
      && Nearer(point.x, point.x + (sprung.x - velocity.x), home.x)
      && Nearer(point.y, point.y + (sprung.y - velocity.y), home.y)
  {
  }

  ghost predicate InBounds(positions: Positions) {
    forall key | key in positions :: ValidPoint(positions[key])
  }

  /** Only affected cards move, and the held one does not. */
  ghost predicate KeepsOthers(held: string, affected: seq<string>, before: Positions, after: Positions) {
    && before.Keys == after.Keys
    && forall key | key in before && (key == held || key !in affected) :: after[key] == before[key]
  }

  /** A sweep that may move cards: its findings concern the cards where they were as long as none has moved. */
  ghost predicate SweepState(kind: Resolution, bodies: seq<Body>, start: Positions, before: seq<string>,
                             positions: Positions, affected: seq<string>, visited: set<Pair>, resolved: seq<Pair>) {
    && NoRepeats(resolved) && (forall pair <- resolved :: pair in visited)
    && before <= affected
    && (Still(kind, resolved) ==> positions == start && Sweeping(bodies, start, before, affected, visited, resolved))
  }

  ghost predicate Still(kind: Resolution, resolved: seq<Pair>) {
    kind.Impulse? || resolved == []
  }

  /** What changes while a card is held: `affected` is in the order the cards were affected. */
  datatype Draft = Draft(positions: Positions, velocities: map<string, Point>, affected: seq<string>)

  datatype Scene = Scene(bodies: seq<Body>, rest: Positions, held: string)

  ghost predicate ValidDraft(scene: Scene, draft: Draft) {
    && Known(scene.bodies, draft.positions) && Known(scene.bodies, scene.rest)
    && scene.held in draft.affected && NoRepeats(draft.affected)
    && (forall key <- draft.affected :: key == scene.held || key in CardKeys(scene.bodies))
    && (forall key | key in draft.velocities :: key in draft.affected && key != scene.held)
  }

  /** Pushes or moves an overlapping pair apart; the held card stays. */
  function Resolved(kind: Resolution, held: string, draft: Draft, a: Body, b: Body): Draft
    requires a.key in draft.positions && b.key in draft.positions
  {
    var p, q := draft.positions[a.key], draft.positions[b.key];
    var affected := AddUnlessHeld(AddUnlessHeld(draft.affected, held, a.key), held, b.key);
    match kind
    case Impulse =>
      var push := Along(Offset(p, q, a, b), LeastOverlap(p, q, a, b) * 0.55);
      var first := Pushed(draft.velocities, held, a.key, AlongX(p, q, a, b), -push);
      Draft(draft.positions, Pushed(first, held, b.key, AlongX(p, q, a, b), push), affected)
    case Separate =>
      var first := if a.key == held then draft.positions else draft.positions[a.key := Clamp(FirstApart(p, q, a, b, held))];
      var second := if b.key == held then first else first[b.key := Clamp(SecondApart(p, q, a, b, held))];
      Draft(second, draft.velocities, affected)
  }

  /** What a resolution adds to the velocity of a card. */
  function Gained(before: map<string, Point>, after: map<string, Point>, key: string): Point {
    Point(VelocityOf(after, key).x - VelocityOf(before, key).x, VelocityOf(after, key).y - VelocityOf(before, key).y)
  }

  /** The gains of two overlapping cards: along the axis of the lesser overlap only, the first away from the second and
      the second away from the first, by the given part of that overlap; the held card gains nothing. */
  ghost predicate PointsApart(p: Point, q: Point, a: Body, b: Body, held: string, first: Point, second: Point) {
    var along := OverlapX(p, q, a, b) < OverlapY(p, q, a, b);
    var (near, far, least) := if along then (p.x, q.x, OverlapX(p, q, a, b)) else (p.y, q.y, OverlapY(p, q, a, b));
    var (gain, gain', aside, aside') := if along then (first.x, second.x, first.y, second.y) else (first.y, second.y, first.x, second.x);
    && aside == aside' == 0.0
    && gain == (if a.key == held then 0.0 else if near <= far then -0.55 * least else 0.55 * least)
    && gain' == (if b.key == held then 0.0 else if near <= far then 0.55 * least else -0.55 * least)
  }

  /** A push points the two cards apart and no other card gains velocity. */
  lemma PushPointsApart(held: string, draft: Draft, a: Body, b: Body)
    requires a.key != b.key && Meet(draft.positions, a, b)
    ensures
      var after := Resolved(Impulse, held, draft, a, b);
      && PointsApart(draft.positions[a.key], draft.positions[b.key], a, b, held,
                     Gained(draft.velocities, after.velocities, a.key), Gained(draft.velocities, after.velocities, b.key))
      && forall key | key != a.key && key != b.key :: VelocityOf(after.velocities, key) == VelocityOf(draft.velocities, key)
  {
  }

  /** A push leaves cards where they are and gives velocity to affected cards only. */
  lemma PushKeepsDraft(scene: Scene, draft: Draft, a: Body, b: Body)
    requires ValidDraft(scene, draft) && a in scene.bodies && b in scene.bodies && a.key != b.key && a.key in draft.affected
    ensures
      var after := Resolved(Impulse, scene.held, draft, a, b);
      ValidDraft(scene, after) && after.affected == Add(draft.affected, b.key) && after.positions == draft.positions
  {
    var after := Resolved(Impulse, scene.held, draft, a, b);
    assert after.affected == Add(draft.affected, b.key);
    assert b.key in CardKeys(scene.bodies);
  }

  /** A move changes at most the two cards, within the plane, and never the held one. */
  lemma MoveKeepsDraft(scene: Scene, draft: Draft, a: Body, b: Body)
    requires ValidDraft(scene, draft) && a in scene.bodies && b in scene.bodies && a.key != b.key && a.key in draft.affected
    ensures
      var after := Resolved(Separate, scene.held, draft, a, b);
      && ValidDraft(scene, after) && after.affected == Add(draft.affected, b.key)
      && KeepsOthers(scene.held, after.affected, draft.positions, after.positions)
      && (InBounds(draft.positions) ==> InBounds(after.positions))
  {
    var after := Resolved(Separate, scene.held, draft, a, b);
    assert after.affected == Add(draft.affected, b.key);
    assert after.positions.Keys == draft.positions.Keys;
    assert b.key in CardKeys(scene.bodies);
  }

  lemma ResolvedKeepsDraft(kind: Resolution, scene: Scene, draft: Draft, a: Body, b: Body)
    requires ValidDraft(scene, draft) && a in scene.bodies && b in scene.bodies && a.key != b.key && a.key in draft.affected
    ensures
      var after := Resolved(kind, scene.held, draft, a, b);
      && ValidDraft(scene, after) && after.affected == Add(draft.affected, b.key)
      && KeepsOthers(scene.held, after.affected, draft.positions, after.positions)
      && (InBounds(draft.positions) ==> InBounds(after.positions))
  {
    match kind
    case Impulse => PushKeepsDraft(scene, draft, a, b);
    case Separate => MoveKeepsDraft(scene, draft, a, b);
  }

  /** Two cards that were found to overlap, in the order of the sweep. */
  datatype Contact = Contact(a: Body, b: Body)

  function PairsOf(contacts: seq<Contact>): (r: seq<Pair>)
    ensures |r| == |contacts|
  {
    if contacts == [] then []
    else
      var last := contacts[|contacts| - 1];
      PairsOf(contacts[..|contacts| - 1]) + [{last.a.key, last.b.key}]
  }

  predicate Meet(positions: Positions, a: Body, b: Body) {
    a.key in positions && b.key in positions && Overlap(positions[a.key], positions[b.key], a, b)
  }

  /** Resolves the contacts one after another, as long as each one overlaps when its turn comes. */
  function Replay(kind: Resolution, held: string, start: Draft, contacts: seq<Contact>): Option<Draft> {
    if contacts == [] then Some(start)
    else
      var last := contacts[|contacts| - 1];
      match Replay(kind, held, start, contacts[..|contacts| - 1])
      case None => None
      case Some(draft) => if Meet(draft.positions, last.a, last.b) then Some(Resolved(kind, held, draft, last.a, last.b)) else None
  }

  lemma ContactNext(kind: Resolution, held: string, start: Draft, contacts: seq<Contact>, a: Body, b: Body)
    ensures PairsOf(contacts + [Contact(a, b)]) == PairsOf(contacts) + [{a.key, b.key}]
    ensures
      var before := Replay(kind, held, start, contacts);
      before.Some? && Meet(before.value.positions, a, b) ==>
        Replay(kind, held, start, contacts + [Contact(a, b)]) == Some(Resolved(kind, held, before.value, a, b))
  {
    assert (contacts + [Contact(a, b)])[..|contacts|] == contacts;
  }

  /** A sweep under way, from the draft it started with. */
  ghost predicate SweepInv(kind: Resolution, scene: Scene, start: Draft, now: Draft, visited: set<Pair>, contacts: seq<Contact>) {
    && ValidDraft(scene, start) && ValidDraft(scene, now)
    && SweepState(kind, scene.bodies, start.positions, start.affected, now.positions, now.affected, visited, PairsOf(contacts))
    && KeepsOthers(scene.held, now.affected, start.positions, now.positions)
    && (InBounds(start.positions) ==> InBounds(now.positions))
    && Replay(kind, scene.held, start, contacts) == Some(now)
  }

  lemma StateResolves(kind: Resolution, scene: Scene, start: Draft, now: Draft, visited: set<Pair>, resolved: seq<Pair>, a: Body, b: Body)
    requires ValidDraft(scene, start) && ValidDraft(scene, now)
    requires SweepState(kind, scene.bodies, start.positions, start.affected, now.positions, now.affected, visited, resolved)
    requires a in scene.bodies && b in scene.bodies && a.key != b.key && a.key in now.affected
    requires {a.key, b.key} !in visited && Meet(now.positions, a, b)
    ensures
      var after := Resolved(kind, scene.held, now, a, b);
      SweepState(kind, scene.bodies, start.positions, start.affected, after.positions, after.affected,
                 visited + {{a.key, b.key}}, resolved + [{a.key, b.key}])
  {
    hide Sweeping, Touch, InBounds, KeepsOthers, Overlap;
    ResolvedKeepsDraft(kind, scene, now, a, b);
    if Still(kind, resolved) {
      TouchIs(scene.bodies, start.positions, a, b);
      VisitOverlapping(scene.bodies, start.positions, start.affected, now.affected, visited, resolved, a, b);
      if kind.Impulse? {
        PushKeepsDraft(scene, now, a, b);
      }
    }
  }

  lemma VisitResolves(kind: Resolution, scene: Scene, start: Draft, now: Draft, visited: set<Pair>, contacts: seq<Contact>, a: Body, b: Body)
    requires SweepInv(kind, scene, start, now, visited, contacts)
    requires a in scene.bodies && b in scene.bodies && a.key != b.key && a.key in now.affected
    requires {a.key, b.key} !in visited && Meet(now.positions, a, b)
    ensures SweepInv(kind, scene, start, Resolved(kind, scene.held, now, a, b), visited + {{a.key, b.key}}, contacts + [Contact(a, b)])
  {
    hide SweepState, ValidDraft, Resolved, Overlap, InBounds, KeepsOthers;
    StateResolves(kind, scene, start, now, visited, PairsOf(contacts), a, b);
    ResolvedKeepsDraft(kind, scene, now, a, b);
    OthersKept(scene.held, start.positions, now.positions, Resolved(kind, scene.held, now, a, b).positions,
               now.affected, Resolved(kind, scene.held, now, a, b).affected);
    ContactNext(kind, scene.held, start, contacts, a, b);
  }

  lemma OthersKept(held: string, first: Positions, second: Positions, third: Positions, few: seq<string>, many: seq<string>)
    requires few <= many && KeepsOthers(held, few, first, second) && KeepsOthers(held, many, second, third)
    ensures KeepsOthers(held, many, first, third)
  {
  }

  lemma VisitPasses(kind: Resolution, scene: Scene, start: Draft, now: Draft, visited: set<Pair>, contacts: seq<Contact>, a: Body, b: Body)
    requires SweepInv(kind, scene, start, now, visited, contacts)
    requires a in scene.bodies && b in scene.bodies && a.key != b.key && !Meet(now.positions, a, b)
    ensures SweepInv(kind, scene, start, now, visited + {{a.key, b.key}}, contacts)
  {
    hide Sweeping, Touch, InBounds, KeepsOthers, Overlap, PairsOf, Replay;
    if Still(kind, PairsOf(contacts)) {
      TouchIs(scene.bodies, start.positions, a, b);
      VisitApart(scene.bodies, start.positions, start.affected, now.affected, visited, PairsOf(contacts), a, b);
    }
  }

  /** What one sweep leaves behind: what resolving its contacts in order leaves, and exact findings as long as no
      card has moved. It is complete exactly when all the comparisons of the cards it affects fit the budget. */
  ghost predicate Collided(kind: Resolution, scene: Scene, start: Draft, now: Draft, contacts: seq<Contact>, complete: bool) {
    && ValidDraft(scene, start) && Follows(scene, start, now)
    && Replay(kind, scene.held, start, contacts) == Some(now)
    && NoRepeats(PairsOf(contacts))
    && (Still(kind, PairsOf(contacts)) ==> now.positions == start.positions)
    && (Still(kind, PairsOf(contacts)) ==> Sound(scene.bodies, start.positions, start.affected, now.affected, PairsOf(contacts)))
    && (Still(kind, PairsOf(contacts)) && complete ==> Exact(scene.bodies, start.positions, start.affected, now.affected, PairsOf(contacts)))
    && (complete <==> |Compared(scene.bodies, start.positions, Elements(now.affected))| <= PAIR_BUDGET)
  }

  /** The sweep so far, after the boxes from `low` to `index` in the window of one card. */
  ghost predicate SweepingCard(kind: Resolution, scene: Scene, start: Draft, now: Draft, boxes: seq<Box>, a: Body, low: nat, index: nat,
                               before: set<Pair>, keys: seq<string>, visited: set<Pair>, contacts: seq<Contact>) {
    && low <= index <= |boxes|
    && SweepInv(kind, scene, start, now, visited, contacts)
    && before <= visited && keys <= now.affected && a.key in now.affected
    && forall i | low <= i < index && boxes[i].body.key != a.key :: {a.key, boxes[i].body.key} in visited
  }

  lemma SweepNext(kind: Resolution, scene: Scene, start: Draft, now: Draft, boxes: seq<Box>, a: Body, low: nat, index: nat,
                  before: set<Pair>, keys: seq<string>, visited: set<Pair>, contacts: seq<Contact>,
                  now': Draft, visited': set<Pair>, contacts': seq<Contact>)
    requires SweepingCard(kind, scene, start, now, boxes, a, low, index, before, keys, visited, contacts) && index < |boxes|
    requires SweepInv(kind, scene, start, now', visited', contacts') && now.affected <= now'.affected && visited <= visited'
    requires boxes[index].body.key != a.key ==> {a.key, boxes[index].body.key} in visited'
    ensures SweepingCard(kind, scene, start, now', boxes, a, low, index + 1, before, keys, visited', contacts')
  {
    hide SweepInv;
    forall i | low <= i < index + 1 && boxes[i].body.key != a.key
      ensures {a.key, boxes[i].body.key} in visited'
    {
      if i < index {
        assert {a.key, boxes[i].body.key} in visited;
      }
    }
  }

  /** Cards stay affected, only affected cards other than the held one move, and none leaves the plane. */
  ghost predicate Follows(scene: Scene, before: Draft, after: Draft) {
    && before.affected <= after.affected
    && KeepsOthers(scene.held, after.affected, before.positions, after.positions)
    && (InBounds(before.positions) && InBounds(scene.rest) ==> InBounds(after.positions))
  }

  lemma FirstOccurrence(s: seq<string>, i: nat)
    requires NoRepeats(s) && i < |s|
    ensures s[i] !in Elements(s[..i])
  {
  }

  lemma NextElement(before: seq<string>, after: seq<string>, i: nat)
    requires before <= after && i < |before|
    ensures after[i] == before[i] && Elements(after[..i + 1]) == Elements(before[..i]) + {before[i]}
  {
    assert after[..i + 1] == before[..i] + [before[i]];
  }

  /** The first keys whose pairs have all been visited. */
  ghost predicate FinishedUpTo(bodies: seq<Body>, positions: Positions, visited: set<Pair>, affected: seq<string>, i: nat)
    requires Known(bodies, positions)
  {
    i <= |affected| && forall j | 0 <= j < i :: Finished(bodies, positions, visited, affected[j])
  }

  lemma OneMoreFinished(bodies: seq<Body>, positions: Positions, visited: set<Pair>, affected: seq<string>, visited': set<Pair>, affected': seq<string>, i: nat)
    requires Known(bodies, positions) && FinishedUpTo(bodies, positions, visited, affected, i)
    requires visited <= visited' && affected <= affected' && i < |affected| && Finished(bodies, positions, visited', affected[i])
    ensures FinishedUpTo(bodies, positions, visited', affected', i + 1)
  {
    forall j | 0 <= j <= i
      ensures Finished(bodies, positions, visited', affected'[j])
    {
      assert affected'[j] == affected[j];
      if j < i {
        forall l | Touch(bodies, positions, affected[j], l)
          ensures {affected[j], l} in visited'
        {
          assert Finished(bodies, positions, visited, affected[j]);
        }
      }
    }
  }

  lemma NoCardNoTouch(boxes: seq<Box>, bodies: seq<Body>, positions: Positions, visited: set<Pair>, key: string)
    requires AreBoxes(boxes, bodies, positions) && forall box <- boxes :: box.body.key != key
    ensures key !in CardKeys(bodies) && Finished(bodies, positions, visited, key)
  {
    forall body <- bodies
      ensures body.key != key
    {
      assert BoxOf(positions, body) in boxes;
    }
  }

  lemma FollowsKeys(scene: Scene, before: Draft, after: Draft)
    requires Follows(scene, before, after)
    ensures before.positions.Keys == after.positions.Keys && before.affected <= after.affected
  {
  }

  lemma FollowsChain(scene: Scene, first: Draft, second: Draft, third: Draft)
    requires Follows(scene, first, second) && Follows(scene, second, third)
    ensures Follows(scene, first, third)
  {
  }

  /** Velocities fade, and are cut down to a speed of 45. */
  function Damped(velocity: Point, hypot: (real, real) -> real): Point {
    var x, y := velocity.x * 0.78, velocity.y * 0.78;
    var size := Max(0.001, hypot(x, y));
    var cap := if 45.0 < size then 45.0 / size else 1.0;
    Point(x * cap, y * cap)
  }

  ghost predicate Scales(hypot: (real, real) -> real, x: real, y: real, factor: real) {
    hypot(x * factor, y * factor) == hypot(x, y) * factor && hypot(x, y) >= 0.0
  }

  /** A length: never negative, and it grows with its vector. */
  ghost predicate IsLength(hypot: (real, real) -> real) {
    forall x, y, factor | 0.0 <= factor :: Scales(hypot, x, y, factor)
  }

  /** A vector of the same direction, `factor` times as long. */
  ghost predicate IsScaled(hypot: (real, real) -> real, vector: Point, scaled: Point, factor: real) {
    && scaled == Point(vector.x * factor, vector.y * factor)
    && hypot(scaled.x, scaled.y) == hypot(vector.x, vector.y) * factor
  }

  /** A velocity keeps its direction: it fades to 78 % of its length, and is cut down further when that is more than 45. */
  lemma DampedIsCapped(velocity: Point, hypot: (real, real) -> real) returns (faded: Point, cap: real)
    requires IsLength(hypot)
    ensures IsScaled(hypot, velocity, faded, 0.78)
    ensures 0.0 < cap <= 1.0 && IsScaled(hypot, faded, Damped(velocity, hypot), cap)
    ensures hypot(Damped(velocity, hypot).x, Damped(velocity, hypot).y) <= 45.0
    ensures hypot(faded.x, faded.y) <= 45.0 ==> Damped(velocity, hypot) == faded
  {
    hide CapOf, Damped;
    faded := Point(velocity.x * 0.78, velocity.y * 0.78);
    assert Scales(hypot, velocity.x, velocity.y, 0.78) && Scales(hypot, faded.x, faded.y, 0.0);
    cap := CapOf(hypot(faded.x, faded.y));
    Capped(hypot(faded.x, faded.y));
    assert Scales(hypot, faded.x, faded.y, cap);
    DampedIs(velocity, faded, hypot);
  }

  function CapOf(length: real): real {
    if 45.0 < Max(0.001, length) then 45.0 / Max(0.001, length) else 1.0
  }

  lemma DampedIs(velocity: Point, faded: Point, hypot: (real, real) -> real)
    requires faded == Point(velocity.x * 0.78, velocity.y * 0.78)
    ensures Damped(velocity, hypot) == Point(faded.x * CapOf(hypot(faded.x, faded.y)), faded.y * CapOf(hypot(faded.x, faded.y)))
  {
  }

  lemma Capped(length: real)
    requires length >= 0.0
    ensures 0.0 < CapOf(length) <= 1.0 && length * CapOf(length) <= 45.0
    ensures length <= 45.0 ==> CapOf(length) == 1.0
  {
    if 45.0 < length {
      assert length * CapOf(length) == 45.0;
    }
  }

  /** One card moved by its velocity. */
  function Carried(draft: Draft, key: string, velocity: Point): Draft
    requires key in draft.positions
  {
    var to := Clamp(Point(draft.positions[key].x + velocity.x, draft.positions[key].y + velocity.y));
    Draft(draft.positions[key := to], draft.velocities[key := velocity], draft.affected)
  }

  lemma CarriedKeepsDraft(scene: Scene, draft: Draft, key: string, velocity: Point)
    requires ValidDraft(scene, draft) && key in draft.velocities
    ensures key in draft.positions
    ensures ValidDraft(scene, Carried(draft, key, velocity)) && Follows(scene, draft, Carried(draft, key, velocity))
  {
    assert key in CardKeys(scene.bodies);
    assert Carried(draft, key, velocity).positions.Keys == draft.positions.Keys;
  }

  /** What the velocities do to one card. */
  ghost predicate CarriesOne(before: Draft, after: Draft, key: string, hypot: (real, real) -> real) {
    && key in before.velocities && key in before.positions && key in after.velocities && key in after.positions
    && after.velocities[key] == Damped(before.velocities[key], hypot)
    && after.positions[key] == Carried(before, key, after.velocities[key]).positions[key]
  }

  /** The cards in `left` still have to be moved by their velocities; the others have been. */
  ghost predicate Integrating(scene: Scene, start: Draft, now: Draft, left: set<string>, hypot: (real, real) -> real) {
    && ValidDraft(scene, start) && ValidDraft(scene, now) && Follows(scene, start, now)
    && left <= now.velocities.Keys == start.velocities.Keys && now.affected == start.affected
    && (forall key | key in now.velocities && key !in left :: CarriesOne(start, now, key, hypot))
    && (forall key <- left :: key in now.positions && now.velocities[key] == start.velocities[key] && now.positions[key] == start.positions[key])
  }

  lemma IntegrateStarts(scene: Scene, start: Draft, hypot: (real, real) -> real)
    requires ValidDraft(scene, start)
    ensures Integrating(scene, start, start, start.velocities.Keys, hypot)
  {
  }

  lemma CarryOne(scene: Scene, start: Draft, now: Draft, left: set<string>, key: string, hypot: (real, real) -> real)
    requires Integrating(scene, start, now, left, hypot) && key in left
    ensures key in now.positions
    ensures Integrating(scene, start, Carried(now, key, Damped(now.velocities[key], hypot)), left - {key}, hypot)
  {
    hide ValidDraft, Follows, Damped;
    FollowsKeys(scene, start, now);
    var velocity := Damped(now.velocities[key], hypot);
    CarriedKeepsDraft(scene, now, key, velocity);
    FollowsChain(scene, start, now, Carried(now, key, velocity));
  }

  /** The springs of the first affected cards have been applied. */
  ghost predicate Springing(scene: Scene, start: Draft, now: Draft, count: nat) {
    && now.positions == start.positions && now.affected == start.affected
    && forall j | 0 <= j < |start.affected| ::
         var key := start.affected[j];
         if j < count && key != scene.held
         then key in start.positions && key in scene.rest
              && VelocityOf(now.velocities, key) == Sprung(VelocityOf(start.velocities, key), start.positions[key], scene.rest[key])
         else VelocityOf(now.velocities, key) == VelocityOf(start.velocities, key)
  }

  lemma SweepStarts(kind: Resolution, scene: Scene, start: Draft)
    requires ValidDraft(scene, start)
    ensures SweepInv(kind, scene, start, start, {}, [])
  {
  }

  /** The next affected key is a card or the held key, and has not been swept yet. */
  lemma SweepKeepsKeys(kind: Resolution, scene: Scene, start: Draft, now: Draft, visited: set<Pair>, contacts: seq<Contact>, i: nat)
    requires SweepInv(kind, scene, start, now, visited, contacts) && i < |now.affected|
    ensures now.affected[i] !in Elements(now.affected[..i]) && now.affected[i] in CardKeys(scene.bodies) + {scene.held}
  {
    hide SweepState, KeepsOthers, InBounds, Replay;
    FirstOccurrence(now.affected, i);
    assert now.affected[i] in now.affected;
  }

  lemma SweepFollows(kind: Resolution, scene: Scene, start: Draft, now: Draft, visited: set<Pair>, contacts: seq<Contact>)
    requires SweepInv(kind, scene, start, now, visited, contacts)
    ensures Follows(scene, start, now) && NoRepeats(PairsOf(contacts))
    ensures Still(kind, PairsOf(contacts)) ==>
      now.positions == start.positions && Sound(scene.bodies, start.positions, start.affected, now.affected, PairsOf(contacts))
  {
    hide KeepsOthers, InBounds, Replay, PairsOf, IsTouchingPair, Touch;
  }

  lemma SweepStops(kind: Resolution, scene: Scene, start: Draft, now: Draft, visited: set<Pair>, contacts: seq<Contact>)
    requires SweepInv(kind, scene, start, now, visited, contacts)
    requires |Compared(scene.bodies, start.positions, Elements(now.affected))| > PAIR_BUDGET
    ensures ValidDraft(scene, now) && Collided(kind, scene, start, now, contacts, false)
  {
    hide SweepState, Sound, Exact, Follows, Replay, PairsOf, Compared;
    SweepFollows(kind, scene, start, now, visited, contacts);
  }

  lemma SweepCompletes(kind: Resolution, scene: Scene, start: Draft, now: Draft, visited: set<Pair>, contacts: seq<Contact>)
    requires SweepInv(kind, scene, start, now, visited, contacts)
    requires FinishedUpTo(scene.bodies, start.positions, visited, now.affected, |now.affected|)
    requires |Compared(scene.bodies, start.positions, Elements(now.affected))| <= PAIR_BUDGET
    ensures ValidDraft(scene, now) && Collided(kind, scene, start, now, contacts, true)
  {
    hide Sweeping, Sound, Exact, Follows, Replay, PairsOf, Finished, Compared;
    SweepFollows(kind, scene, start, now, visited, contacts);
    if Still(kind, PairsOf(contacts)) {
      SweepEnds(scene.bodies, start.positions, start.affected, now.affected, visited, PairsOf(contacts));
    }
  }

  lemma BoxesAreSorted(boxes: seq<Box>, bodies: seq<Body>, positions: Positions)
    requires AreBoxes(boxes, bodies, positions)
    ensures SortedBoxes(boxes) && Known(bodies, positions)
  {
  }

  lemma BoxesHoldCards(boxes: seq<Box>, bodies: seq<Body>, positions: Positions, box: Box)
    requires AreBoxes(boxes, bodies, positions) && box in boxes
    ensures box.body in bodies && box.body.key in positions && box == BoxOf(positions, box.body)
  {
  }

  lemma WindowIsFinished(boxes: seq<Box>, bodies: seq<Body>, positions: Positions, visited: set<Pair>, a: Box, low: nat, index: nat)
    requires AreBoxes(boxes, bodies, positions) && a in boxes && Looked(boxes, bodies, a, low, index)
    requires index < |boxes| ==> boxes[index].left > a.left + a.body.width + 2.0 * PADDING
    requires forall i | low <= i < index && boxes[i].body.key != a.body.key :: {a.body.key, boxes[i].body.key} in visited
    ensures Finished(bodies, positions, visited, a.body.key)
  {
    hide Finished;
    BoxesHoldCards(boxes, bodies, positions, a);
    WindowFinishes(boxes, bodies, positions, visited, a.body, low, index);
  }

  /** The boxes the sweep of a card has looked at: from the binary search to where it is now. */
  ghost predicate Looked(boxes: seq<Box>, bodies: seq<Body>, a: Box, low: nat, index: nat) {
    && low <= index <= |boxes|
    && (forall i | 0 <= i < low :: boxes[i].left < a.left - Widest(bodies))
    && (forall i | low <= i < index :: a.left - Widest(bodies) <= boxes[i].left <= a.left + a.body.width + 2.0 * PADDING)
  }

  lemma LookStarts(boxes: seq<Box>, bodies: seq<Body>, a: Box, low: nat)
    requires low <= |boxes| && forall i | 0 <= i < low :: boxes[i].left < a.left - Widest(bodies)
    ensures Looked(boxes, bodies, a, low, low)
  {
  }

  lemma LookNext(boxes: seq<Box>, bodies: seq<Body>, a: Box, low: nat, index: nat)
    requires Looked(boxes, bodies, a, low, index) && index < |boxes|
    requires a.left - Widest(bodies) <= boxes[index].left <= a.left + a.body.width + 2.0 * PADDING
    ensures Looked(boxes, bodies, a, low, index + 1)
  {
  }

  lemma LookedAreInWindow(boxes: seq<Box>, bodies: seq<Body>, positions: Positions, a: Box, low: nat, index: nat)
    requires AreBoxes(boxes, bodies, positions) && a in boxes && Looked(boxes, bodies, a, low, index)
    ensures forall i | low <= i < index :: InWindow(bodies, positions, a.body, boxes[i].body)
    ensures forall i | 0 <= i < low :: !InWindow(bodies, positions, a.body, boxes[i].body)
    ensures index < |boxes| && boxes[index].left > a.left + a.body.width + 2.0 * PADDING ==>
      forall i | index <= i < |boxes| :: !InWindow(bodies, positions, a.body, boxes[i].body)
  {
    hide BoxOf;
    forall i | 0 <= i < |boxes|
      ensures boxes[i].body.key in positions && boxes[i] == BoxOf(positions, boxes[i].body)
    {
      BoxesHoldCards(boxes, bodies, positions, boxes[i]);
    }
    BoxesHoldCards(boxes, bodies, positions, a);
  }

  lemma SweptTooMany(boxes: seq<Box>, bodies: seq<Body>, positions: Positions, a: Box, low: nat, index: nat, done: set<string>, compared: nat)
    requires AreBoxes(boxes, bodies, positions) && a in boxes && index < |boxes| && Looked(boxes, bodies, a, low, index + 1)
    requires a.body.key !in done && Counted(bodies, positions, done, compared) && compared + (index + 1 - low) > PAIR_BUDGET
    ensures |Compared(bodies, positions, done + {a.body.key})| > PAIR_BUDGET
  {
    hide Compared, InWindow;
    LookedAreInWindow(boxes, bodies, positions, a, low, index + 1);
    WindowIsCounted(boxes, bodies, positions, a, low, index + 1);
    ComparedNext(bodies, positions, done, a.body.key);
  }

  lemma SweptAll(boxes: seq<Box>, bodies: seq<Body>, positions: Positions, a: Box, low: nat, index: nat, done: set<string>, compared: nat)
    requires AreBoxes(boxes, bodies, positions) && a in boxes && Looked(boxes, bodies, a, low, index)
    requires index < |boxes| ==> boxes[index].left > a.left + a.body.width + 2.0 * PADDING
    requires a.body.key !in done && Counted(bodies, positions, done, compared) && compared + (index - low) <= PAIR_BUDGET
    ensures Counted(bodies, positions, done + {a.body.key}, compared + (index - low))
  {
    hide Compared, InWindow;
    LookedAreInWindow(boxes, bodies, positions, a, low, index);
    WindowIsCounted(boxes, bodies, positions, a, low, index);
    ComparedNext(bodies, positions, done, a.body.key);
  }

  lemma NothingCompared(bodies: seq<Body>, positions: Positions, affected: seq<string>)
    ensures Counted(bodies, positions, Elements(affected[..0]), 0)
  {
    assert Compared(bodies, positions, Elements(affected[..0])) == {};
  }

  lemma FitsBudget(bodies: seq<Body>, positions: Positions, keys: set<string>, compared: nat)
    requires Counted(bodies, positions, keys, compared)
    ensures compared == |Compared(bodies, positions, keys)| <= PAIR_BUDGET
  {
  }

  // ----- a whole step -----

  lemma FollowsItself(scene: Scene, draft: Draft)
    ensures Follows(scene, draft, draft)
  {
  }

  /** The card is less than half a unit from the place where it rests. */
  ghost predicate Near(scene: Scene, start: Draft, key: string, hypot: (real, real) -> real)
    requires key in start.positions && key in scene.rest
  {
    hypot(start.positions[key].x - scene.rest[key].x, start.positions[key].y - scene.rest[key].y) < 0.5
  }

  ghost predicate IsHome(scene: Scene, start: Draft, count: nat, key: string, hypot: (real, real) -> real)
    requires count <= |start.affected| && key in start.positions && key in scene.rest
  {
    key in start.affected[..count] && key != scene.held && Near(scene, start, key, hypot)
  }

  /** The first affected cards are back where they rest, if that was less than half a unit away; no other card moved. */
  ghost predicate Homed(scene: Scene, start: Draft, now: Draft, count: nat, hypot: (real, real) -> real) {
    && count <= |start.affected| && now.affected == start.affected && now.velocities == start.velocities
    && now.positions.Keys == start.positions.Keys
    && forall key | key in start.positions ::
         now.positions[key] == if key in scene.rest && IsHome(scene, start, count, key, hypot) then scene.rest[key] else start.positions[key]
  }

  lemma HomeStarts(scene: Scene, start: Draft, hypot: (real, real) -> real)
    ensures Homed(scene, start, start, 0, hypot)
  {
  }

  lemma AffectedIsPlaced(scene: Scene, draft: Draft, key: string)
    requires ValidDraft(scene, draft) && key in draft.affected && key != scene.held
    ensures key in draft.positions && key in scene.rest
  {
  }

  lemma HomeNext(scene: Scene, start: Draft, now: Draft, i: nat, hypot: (real, real) -> real)
    requires ValidDraft(scene, start) && ValidDraft(scene, now) && Homed(scene, start, now, i, hypot) && i < |start.affected|
    ensures
      var key := start.affected[i];
      if key == scene.held then Homed(scene, start, now, i + 1, hypot)
      else
        && key in now.positions && key in scene.rest
        && if hypot(now.positions[key].x - scene.rest[key].x, now.positions[key].y - scene.rest[key].y) < 0.5
           then
             var after := now.(positions := now.positions[key := scene.rest[key]]);
             ValidDraft(scene, after) && Homed(scene, start, after, i + 1, hypot)
           else Homed(scene, start, now, i + 1, hypot)
  {
    hide ValidDraft, IsHome;
    var key := start.affected[i];
    assert NoRepeats(start.affected) by { AffectedOnce(scene, start); }
    forall other | other in start.positions && other in scene.rest
      ensures IsHome(scene, start, i + 1, other, hypot) <==>
              IsHome(scene, start, i, other, hypot) || (other == key && key != scene.held && Near(scene, start, key, hypot))
      ensures other == key ==> !IsHome(scene, start, i, other, hypot)
    {
      IsHomeNext(scene, start, i, other, hypot);
    }
    if key != scene.held {
      AffectedIsPlaced(scene, now, key);
      AffectedIsPlaced(scene, start, key);
      assert now.positions[key] == start.positions[key];
      PlacingKeepsDraft(scene, now, key);
    }
  }

  lemma AffectedOnce(scene: Scene, draft: Draft)
    requires ValidDraft(scene, draft)
    ensures NoRepeats(draft.affected)
  {
  }

  lemma IsHomeNext(scene: Scene, start: Draft, i: nat, other: string, hypot: (real, real) -> real)
    requires i < |start.affected| && NoRepeats(start.affected) && other in start.positions && other in scene.rest
    ensures IsHome(scene, start, i + 1, other, hypot) <==>
            IsHome(scene, start, i, other, hypot) || (other == start.affected[i] && other != scene.held && Near(scene, start, other, hypot))
    ensures other == start.affected[i] ==> !IsHome(scene, start, i, other, hypot)
  {
    assert start.affected[..i + 1] == start.affected[..i] + [start.affected[i]];
  }

  lemma PlacingKeepsDraft(scene: Scene, draft: Draft, key: string)
    requires ValidDraft(scene, draft) && key in draft.positions && key in scene.rest
    ensures ValidDraft(scene, draft.(positions := draft.positions[key := scene.rest[key]]))
  {
  }

  lemma HomedFollows(scene: Scene, before: Draft, after: Draft, hypot: (real, real) -> real)
    requires Homed(scene, before, after, |before.affected|, hypot)
    ensures Follows(scene, before, after)
  {
  }

  /** One pass of a snap: the draft it leaves and the contacts it found. */
  datatype Pass = Pass(draft: Draft, contacts: seq<Contact>, complete: bool)

  datatype SnapTrace = SnapTrace(homed: Draft, passes: seq<Pass>)

  datatype StepTrace = StepTrace(sprung: Draft, swept: Draft, contacts: seq<Contact>, complete: bool, carried: Draft, snap: SnapTrace)

  function DraftAfter(homed: Draft, passes: seq<Pass>): Draft {
    if passes == [] then homed else passes[|passes| - 1].draft
  }

  /** Each pass moves the contacts of its own sweep apart. */
  ghost predicate ArePasses(scene: Scene, homed: Draft, passes: seq<Pass>) {
    passes == []
    || var front, last := passes[..|passes| - 1], passes[|passes| - 1];
       ArePasses(scene, homed, front) && Collided(Separate, scene, DraftAfter(homed, front), last.draft, last.contacts, last.complete)
  }

  lemma NoPasses(scene: Scene, homed: Draft)
    ensures ArePasses(scene, homed, [])
  {
  }

  lemma OnePass(scene: Scene, homed: Draft, passes: seq<Pass>, passed: Pass)
    requires ArePasses(scene, homed, passes)
    requires Collided(Separate, scene, DraftAfter(homed, passes), passed.draft, passed.contacts, passed.complete)
    ensures ArePasses(scene, homed, passes + [passed])
  {
    assert (passes + [passed])[..|passes|] == passes;
  }

  /** Cards that are almost home return, passes follow until one finds nothing, at most 16, and nothing keeps moving. */
  ghost predicate IsSnap(scene: Scene, before: Draft, trace: SnapTrace, after: Draft, hypot: (real, real) -> real) {
    && Homed(scene, before, trace.homed, |before.affected|, hypot)
    && ArePasses(scene, trace.homed, trace.passes)
    && 1 <= |trace.passes| <= SNAP_PASSES
    && (forall i | 0 <= i < |trace.passes| - 1 :: trace.passes[i].contacts != [])
    && (|trace.passes| < SNAP_PASSES ==> trace.passes[|trace.passes| - 1].contacts == [])
    && after == DraftAfter(trace.homed, trace.passes).(velocities := map[])
  }

  /** A snap after some of its passes. */
  ghost predicate Snapping(scene: Scene, before: Draft, trace: SnapTrace, now: Draft, count: nat, hypot: (real, real) -> real) {
    && ValidDraft(scene, now) && Follows(scene, before, now)
    && Homed(scene, before, trace.homed, |before.affected|, hypot) && ArePasses(scene, trace.homed, trace.passes)
    && |trace.passes| == count && now == DraftAfter(trace.homed, trace.passes)
    && (forall i | 0 <= i < count - 1 :: trace.passes[i].contacts != [])
  }

  lemma SnapStarts(scene: Scene, before: Draft, homed: Draft, hypot: (real, real) -> real)
    requires ValidDraft(scene, homed) && Homed(scene, before, homed, |before.affected|, hypot)
    ensures Snapping(scene, before, SnapTrace(homed, []), homed, 0, hypot)
  {
    hide ValidDraft, Follows, Homed;
    HomedFollows(scene, before, homed, hypot);
    NoPasses(scene, homed);
  }

  lemma SnapNext(scene: Scene, before: Draft, trace: SnapTrace, now: Draft, count: nat, passed: Pass, hypot: (real, real) -> real)
    requires Snapping(scene, before, trace, now, count, hypot) && (count > 0 ==> trace.passes[count - 1].contacts != [])
    requires ValidDraft(scene, passed.draft) && Collided(Separate, scene, now, passed.draft, passed.contacts, passed.complete)
    ensures Snapping(scene, before, trace.(passes := trace.passes + [passed]), passed.draft, count + 1, hypot)
  {
    hide ValidDraft, Follows, Homed, ArePasses, Collided;
    CollidedFollows(scene, now, passed);
    FollowsChain(scene, before, now, passed.draft);
    OnePass(scene, trace.homed, trace.passes, passed);
  }

  lemma CollidedFollows(scene: Scene, now: Draft, passed: Pass)
    requires Collided(Separate, scene, now, passed.draft, passed.contacts, passed.complete)
    ensures Follows(scene, now, passed.draft)
  {
    hide Follows, Sound, Exact, Replay;
  }

  lemma SnapEnds(scene: Scene, before: Draft, trace: SnapTrace, now: Draft, count: nat, hypot: (real, real) -> real)
    requires Snapping(scene, before, trace, now, count, hypot) && 1 <= count <= SNAP_PASSES
    requires count < SNAP_PASSES ==> trace.passes[count - 1].contacts == []
    ensures IsSnap(scene, before, trace, now.(velocities := map[]), hypot)
    ensures ValidDraft(scene, now.(velocities := map[])) && Follows(scene, before, now.(velocities := map[]))
  {
    hide Homed, ArePasses;
  }

  /** When the last pass found nothing and its comparisons fit the budget, no affected card overlaps any card. */
  lemma CalmSnapLeavesNoOverlap(scene: Scene, before: Draft, trace: SnapTrace, after: Draft, hypot: (real, real) -> real)
    requires IsSnap(scene, before, trace, after, hypot)
    requires trace.passes[|trace.passes| - 1].contacts == []
    requires |Compared(scene.bodies, after.positions, Elements(after.affected))| <= PAIR_BUDGET
    ensures Known(scene.bodies, after.positions)
    ensures forall k, l | k in after.affected :: !Touch(scene.bodies, after.positions, k, l)
  {
    hide Homed, Follows, Overlap, Sound, Compared;
    var front, last := trace.passes[..|trace.passes| - 1], trace.passes[|trace.passes| - 1];
    var start := DraftAfter(trace.homed, front);
    assert Collided(Separate, scene, start, last.draft, last.contacts, last.complete);
    assert PairsOf(last.contacts) == [];
    assert last.draft == start;
    ExactAndEmpty(scene.bodies, start.positions, start.affected, start.affected);
  }

  lemma ExactAndEmpty(bodies: seq<Body>, positions: Positions, before: seq<string>, after: seq<string>)
    requires Exact(bodies, positions, before, after, [])
    ensures Known(bodies, positions) && forall k, l | k in after :: !Touch(bodies, positions, k, l)
  {
  }

  /** The springs, the pushes and then the velocities. */
  ghost predicate IsStep(scene: Scene, before: Draft, trace: StepTrace, hypot: (real, real) -> real) {
    && Springing(scene, before, trace.sprung, |before.affected|)
    && Collided(Impulse, scene, trace.sprung, trace.swept, trace.contacts, trace.complete)
    && Integrating(scene, trace.swept, trace.carried, {}, hypot)
  }

  lemma StepFollows(scene: Scene, before: Draft, trace: StepTrace, hypot: (real, real) -> real)
    requires IsStep(scene, before, trace, hypot)
    ensures Follows(scene, before, trace.carried)
  {
    hide ValidDraft, Replay, PairsOf, Sound, Exact, Compared;
    assert Follows(scene, trace.sprung, trace.swept) && Follows(scene, trace.swept, trace.carried);
    FollowsChain(scene, trace.sprung, trace.swept, trace.carried);
  }

  /** As long as no card moves, a sweep is complete exactly when all the comparisons of the cards that overlaps
      lead to from the affected ones fit the budget, and then those are the cards it affects. */
  lemma CompleteWithinBudget(kind: Resolution, scene: Scene, start: Draft, now: Draft, contacts: seq<Contact>, complete: bool)
    requires Collided(kind, scene, start, now, contacts, complete) && Still(kind, PairsOf(contacts))
    ensures Known(scene.bodies, start.positions)
    ensures
      var reached := Closure(scene.bodies, start.positions, Elements(start.affected));
      && (complete <==> |Compared(scene.bodies, start.positions, reached)| <= PAIR_BUDGET)
      && Elements(now.affected) <= reached
      && (complete ==> Elements(now.affected) == reached)
  {
    hide Touch, Compared, PairsOf, Replay, Follows;
    var reached := Closure(scene.bodies, start.positions, Elements(start.affected));
    assert Elements(start.affected) == set key <- start.affected;
    assert Elements(now.affected) == set key <- now.affected;
    forall j | 0 <= j < |now.affected|
      ensures now.affected[j] in reached
    {
      ReachedIsInClosed(scene.bodies, start.positions, start.affected, now.affected, reached, j);
    }
    ComparedGrows(scene.bodies, start.positions, Elements(now.affected), reached);
    if complete {
      AffectedIsClosure(scene.bodies, start.positions, start.affected, now.affected, PairsOf(contacts));
      assert Elements(now.affected) == reached;
    }
  }

  /** A step resolves only overlaps reached from the affected cards, each once. Its sweep is complete exactly when
      their comparisons fit the budget, and then it resolves all of them. */
  lemma StepResolvesExactly(scene: Scene, before: Draft, trace: StepTrace, hypot: (real, real) -> real)
    requires IsStep(scene, before, trace, hypot)
    ensures Known(scene.bodies, before.positions)
    ensures Sound(scene.bodies, before.positions, before.affected, trace.swept.affected, PairsOf(trace.contacts))
    ensures
      var reached := Closure(scene.bodies, before.positions, Elements(before.affected));
      && (trace.complete <==> |Compared(scene.bodies, before.positions, reached)| <= PAIR_BUDGET)
      && (trace.complete ==>
            && Exact(scene.bodies, before.positions, before.affected, trace.swept.affected, PairsOf(trace.contacts))
            && Elements(trace.swept.affected) == reached)
  {
    hide Exact, Sound, Compared, Closure, Integrating;
    CompleteWithinBudget(Impulse, scene, trace.sprung, trace.swept, trace.contacts, trace.complete);
  }

  class GraphMotion {
    const bodies: seq<Body>
    const rest: Positions
    const held: string
    var positions: Positions
    var velocities: map<string, Point>
    var affected: seq<string>
    var steps: nat
    var quietSteps: nat
    var settled: bool

    function View(): Draft
      reads this
    {
      Draft(positions, velocities, affected)
    }

    function TheScene(): Scene {
      Scene(bodies, rest, held)
    }

    ghost predicate Valid()
      reads this
    {
      ValidDraft(TheScene(), View()) && (settled || steps < MAX_STEPS)
    }

    constructor (bodies: seq<Body>, positions: Positions, held: string)
      requires Known(bodies, positions)
      ensures Valid() && this.bodies == bodies && this.rest == positions && this.held == held
      ensures View() == Draft(positions, map[], [held]) && !settled && steps == 0
    {
      this.bodies, this.rest, this.held := bodies, positions, held;
      this.positions, velocities, affected := positions, map[], [held];
      steps, quietSteps, settled := 0, 0, false;
    }

    method Move(point: Point)
      requires Valid()
      modifies this`positions, this`steps, this`quietSteps, this`settled
      ensures Valid()
      ensures !ValidPoint(point) ==> View() == old(View()) && steps == old(steps) && quietSteps == old(quietSteps) && settled == old(settled)
      ensures ValidPoint(point) ==> positions == old(positions)[held := point] && steps == 0 && quietSteps == 0 && !settled
    {
      if !ValidPoint(point) { return; }
      positions := positions[held := point];
      steps, quietSteps, settled := 0, 0, false;
    }

    method Resolve(kind: Resolution, a: Body, b: Body)
      requires a.key in positions && b.key in positions && a.key != b.key
      modifies this`positions, this`velocities, this`affected
      ensures View() == Resolved(kind, held, old(View()), a, b)
    {
      var p, q := positions[a.key], positions[b.key];
      var horizontal := AlongX(p, q, a, b);
      affected := AddUnlessHeld(AddUnlessHeld(affected, held, a.key), held, b.key);
      match kind {
        case Impulse =>
          var push := Along(Offset(p, q, a, b), LeastOverlap(p, q, a, b) * 0.55);
          velocities := Pushed(velocities, held, a.key, horizontal, -push);
          velocities := Pushed(velocities, held, b.key, horizontal, push);
        case Separate =>
          if a.key != held { positions := positions[a.key := Clamp(FirstApart(p, q, a, b, held))]; }
          if b.key != held { positions := positions[b.key := Clamp(SecondApart(p, q, a, b, held))]; }
      }
    }

    /** Visits one pair of cards of the sweep. */
    method VisitPair(kind: Resolution, a: Body, b: Body, visited: set<Pair>, contacts: seq<Contact>, ghost start: Draft)
      returns (visited': set<Pair>, contacts': seq<Contact>)
      requires SweepInv(kind, TheScene(), start, View(), visited, contacts)
      requires a in bodies && b in bodies && a.key in affected && b.key != a.key
      modifies this`positions, this`velocities, this`affected
      ensures SweepInv(kind, TheScene(), start, View(), visited', contacts')
      ensures visited' == visited + {{a.key, b.key}}
      ensures old(affected) <= affected
    {
      hide SweepState, Replay, InBounds, KeepsOthers, Overlap, PairsOf;
      var pair := {a.key, b.key};
      visited', contacts' := visited + {pair}, contacts;
      if pair in visited {
        assert visited' == visited;
      } else if Meet(positions, a, b) {
        VisitResolves(kind, TheScene(), start, View(), visited, contacts, a, b);
        ResolvedKeepsDraft(kind, TheScene(), View(), a, b);
        Resolve(kind, a, b);
        contacts' := contacts + [Contact(a, b)];
      } else {
        VisitPasses(kind, TheScene(), start, View(), visited, contacts, a, b);
      }
    }

    /** Sweeps the window of one affected card; it is left unfinished only when the budget is used up. */
    method SweepCard(kind: Resolution, a: Box, boxes: seq<Box>, widest: real, compared: nat, visited: set<Pair>,
                     contacts: seq<Contact>, ghost start: Draft, ghost done: set<string>)
      returns (finished: bool, compared': nat, visited': set<Pair>, contacts': seq<Contact>)
      requires AreBoxes(boxes, bodies, start.positions) && a in boxes && a.body.key in affected && a.body.key !in done
      requires widest == Widest(bodies) && Counted(bodies, start.positions, done, compared)
      requires SweepInv(kind, TheScene(), start, View(), visited, contacts)
      modifies this`positions, this`velocities, this`affected
      ensures SweepInv(kind, TheScene(), start, View(), visited', contacts')
      ensures visited <= visited' && old(affected) <= affected
      ensures finished ==> Finished(bodies, start.positions, visited', a.body.key)
      ensures finished ==> Counted(bodies, start.positions, done + {a.body.key}, compared')
      ensures !finished ==> |Compared(bodies, start.positions, done + {a.body.key})| > PAIR_BUDGET
    {
      hide SweepInv, Finished, BoxOf, Compared, Counted, Looked, AreBoxes, Widest;
      compared', visited', contacts' := compared, visited, contacts;
      FitsBudget(bodies, start.positions, done, compared);
      BoxesAreSorted(boxes, bodies, start.positions);
      var low := LowerBound(boxes, a.left - widest);
      LookStarts(boxes, bodies, a, low);
      var index := low;
      while index < |boxes| && boxes[index].left <= a.left + a.body.width + 2.0 * PADDING
        invariant SweepingCard(kind, TheScene(), start, View(), boxes, a.body, low, index, visited, old(affected), visited', contacts')
        invariant Looked(boxes, bodies, a, low, index) && compared' == compared + (index - low) && compared' <= PAIR_BUDGET
      {
        LookNext(boxes, bodies, a, low, index);
        compared' := compared' + 1;
        if compared' > PAIR_BUDGET {
          SweptTooMany(boxes, bodies, start.positions, a, low, index, done, compared);
          return false, compared', visited', contacts';
        }
        var b := boxes[index].body;
        BoxesHoldCards(boxes, bodies, start.positions, a);
        BoxesHoldCards(boxes, bodies, start.positions, boxes[index]);
        ghost var now, known, found := View(), visited', contacts';
        if b.key != a.body.key {
          visited', contacts' := VisitPair(kind, a.body, b, visited', contacts', start);
        }
        SweepNext(kind, TheScene(), start, now, boxes, a.body, low, index, visited, old(affected), known, found, View(), visited', contacts');
        index := index + 1;
      }
      finished := true;
      WindowIsFinished(boxes, bodies, start.positions, visited', a, low, index);
      SweptAll(boxes, bodies, start.positions, a, low, index, done, compared);
    }

    /** Sweeps the window of an affected key, if it is a card. */
    method SweepKey(kind: Resolution, key: string, boxes: seq<Box>, widest: real, compared: nat, visited: set<Pair>,
                    contacts: seq<Contact>, ghost start: Draft, ghost done: set<string>)
      returns (finished: bool, compared': nat, visited': set<Pair>, contacts': seq<Contact>)
      requires AreBoxes(boxes, bodies, start.positions) && key in affected && key !in done
      requires widest == Widest(bodies) && Counted(bodies, start.positions, done, compared)
      requires SweepInv(kind, TheScene(), start, View(), visited, contacts)
      modifies this`positions, this`velocities, this`affected
      ensures SweepInv(kind, TheScene(), start, View(), visited', contacts')
      ensures visited <= visited' && old(affected) <= affected
      ensures finished ==> Finished(bodies, start.positions, visited', key) && Counted(bodies, start.positions, done + {key}, compared')
      ensures !finished ==> |Compared(bodies, start.positions, done + {key})| > PAIR_BUDGET
    {
      hide SweepInv, Compared;
      finished, compared', visited', contacts' := true, compared, visited, contacts;
      if box :| box in boxes && box.body.key == key {
        finished, compared', visited', contacts' := SweepCard(kind, box, boxes, widest, compared, visited, contacts, start, done);
      } else {
        NoCardNoTouch(boxes, bodies, start.positions, visited, key);
        NotACard(bodies, start.positions, key);
        ComparedNext(bodies, start.positions, done, key);
      }
    }

    /** Finds the overlaps of the affected cards, and of those it affects, by a sweep over sorted boxes. */
    method Collisions(kind: Resolution) returns (contacts: seq<Contact>, ghost complete: bool)
      requires Valid()
      modifies this`positions, this`velocities, this`affected
      ensures Valid() && Collided(kind, TheScene(), old(View()), View(), contacts, complete)
    {
      hide SweepInv, Finished, AreBoxes, Sweeping, Collided, Compared, Counted;
      ghost var start := View();
      var boxes := SortedBoxesOf(bodies, positions);
      var widest := WidestBox(boxes, bodies, positions);
      var compared: nat, visited: set<Pair>, finished := 0, {}, true;
      contacts := [];
      SweepStarts(kind, TheScene(), start);
      NothingCompared(bodies, start.positions, affected);
      var i := 0;
      while i < |affected|
        invariant SweepInv(kind, TheScene(), start, View(), visited, contacts)
        invariant FinishedUpTo(bodies, start.positions, visited, affected, i)
        invariant Counted(bodies, start.positions, Elements(affected[..i]), compared)
        decreases CardKeys(bodies) + {held} - Elements(affected[..i])
      {
        var key := affected[i];
        ghost var done := Elements(affected[..i]);
        SweepKeepsKeys(kind, TheScene(), start, View(), visited, contacts, i);
        ghost var known, keys := visited, affected;
        finished, compared, visited, contacts := SweepKey(kind, key, boxes, widest, compared, visited, contacts, start, done);
        NextElement(keys, affected, i);
        if !finished {
          ComparedGrows(bodies, start.positions, done + {key}, Elements(affected));
          SweepStops(kind, TheScene(), start, View(), visited, contacts);
          return contacts, false;
        }
        OneMoreFinished(bodies, start.positions, known, keys, visited, affected, i);
        i := i + 1;
      }
      complete := true;
      assert affected[..i] == affected;
      FitsBudget(bodies, start.positions, Elements(affected), compared);
      SweepCompletes(kind, TheScene(), start, View(), visited, contacts);
    }

    /** One step: springs pull affected cards to where they rest, overlapping cards push each other, and the
        velocities move them. `quiet` says whether little moved. */
    method Step(hypot: (real, real) -> real, quiet: bool) returns (moving: bool, ghost trace: StepTrace)
      requires Valid()
      modifies this`positions, this`velocities, this`affected, this`steps, this`quietSteps, this`settled
      ensures Valid() && Follows(TheScene(), old(View()), View())
      ensures old(settled) ==> !moving && settled && View() == old(View()) && steps == old(steps) && quietSteps == old(quietSteps)
      ensures !old(settled) ==>
        && IsStep(TheScene(), old(View()), trace, hypot)
        && quietSteps == (if quiet then old(quietSteps) + 1 else 0) && steps == old(steps) + 1
        && (moving <==> steps < MAX_STEPS && quietSteps < 3) && settled == !moving
        && (moving ==> View() == trace.carried)
        && (!moving ==> IsSnap(TheScene(), trace.carried, trace.snap, View(), hypot))
    {
      hide IsSnap, Springing, Collided, Integrating, Follows;
      trace := StepTrace(View(), View(), [], true, View(), SnapTrace(View(), []));
      if settled {
        FollowsItself(TheScene(), View());
        return false, trace;
      }
      Spring();
      ghost var sprung := View();
      var contacts, complete := Collisions(Impulse);
      ghost var swept := View();
      Integrate(hypot);
      ghost var carried := View();
      trace := StepTrace(sprung, swept, contacts, complete, carried, trace.snap);
      StepFollows(TheScene(), old(View()), trace, hypot);
      quietSteps := if quiet then quietSteps + 1 else 0;
      steps := steps + 1;
      if steps < MAX_STEPS && quietSteps < 3 { return true, trace; }
      settled := true;
      ghost var snap := Snap(hypot);
      trace := trace.(snap := snap);
      FollowsChain(TheScene(), old(View()), carried, View());
      return false, trace;
    }

    method Spring()
      requires Valid()
      modifies this`velocities
      ensures Valid() && Springing(TheScene(), old(View()), View(), |affected|)
    {
      ghost var start := View();
      for i := 0 to |affected|
        invariant ValidDraft(TheScene(), View()) && Springing(TheScene(), start, View(), i)
      {
        var key := affected[i];
        assert key in affected;
        if key != held {
          velocities := velocities[key := Sprung(VelocityOf(velocities, key), positions[key], rest[key])];
        }
      }
    }

    method Integrate(hypot: (real, real) -> real)
      requires Valid()
      modifies this`velocities, this`positions
      ensures Integrating(TheScene(), old(View()), View(), {}, hypot)
    {
      ghost var start := View();
      IntegrateStarts(TheScene(), start, hypot);
      var left := velocities.Keys;
      while left != {}
        invariant Integrating(TheScene(), start, View(), left, hypot)
        decreases left
      {
        var key: string :| key in left;
        CarryOne(TheScene(), start, View(), left, key, hypot);
        var carried := Carried(View(), key, Damped(velocities[key], hypot));
        positions, velocities := carried.positions, carried.velocities;
        assert View() == carried;
        left := left - {key};
      }
    }

    method ReturnHome(hypot: (real, real) -> real)
      requires Valid()
      modifies this`positions
      ensures Valid() && Homed(TheScene(), old(View()), View(), |affected|, hypot)
    {
      hide KeepsOthers, Known, IsHome;
      ghost var start := View();
      HomeStarts(TheScene(), start, hypot);
      for i := 0 to |affected|
        invariant affected == start.affected && ValidDraft(TheScene(), View()) && Homed(TheScene(), start, View(), i, hypot)
      {
        var key := affected[i];
        HomeNext(TheScene(), start, View(), i, hypot);
        if key != held && hypot(positions[key].x - rest[key].x, positions[key].y - rest[key].y) < 0.5 {
          positions := positions[key := rest[key]];
        }
      }
    }

    /** Runs to rest, in at most the fixed number of steps. */
    method Settle(hypot: (real, real) -> real, quiet: nat -> bool)
      requires Valid()
      modifies this`positions, this`velocities, this`affected, this`steps, this`quietSteps, this`settled
      ensures Valid() && Follows(TheScene(), old(View()), View()) && settled
    {
      hide Follows, IsStep, IsSnap;
      FollowsItself(TheScene(), View());
      var moving := true;
      while moving
        invariant Valid() && Follows(TheScene(), old(View()), View()) && (!moving ==> settled)
        decreases moving, MAX_STEPS - steps
      {
        ghost var trace;
        ghost var before := View();
        moving, trace := Step(hypot, quiet(steps));
        FollowsChain(TheScene(), old(View()), before, View());
      }
    }

    /** Brings cards that are almost there back to where they rest, then moves overlapping cards apart, until a
        pass finds nothing to move. */
    method Snap(hypot: (real, real) -> real) returns (ghost trace: SnapTrace)
      requires Valid()
      modifies this`positions, this`velocities, this`affected
      ensures Valid() && Follows(TheScene(), old(View()), View()) && IsSnap(TheScene(), old(View()), trace, View(), hypot)
    {
      hide Collided, Snapping, Follows;
      ReturnHome(hypot);
      trace := SnapTrace(View(), []);
      SnapStarts(TheScene(), old(View()), View(), hypot);
      for pass := 0 to SNAP_PASSES
        invariant Valid() && Snapping(TheScene(), old(View()), trace, View(), pass, hypot)
        invariant |trace.passes| == pass && (pass > 0 ==> trace.passes[pass - 1].contacts != [])
      {
        ghost var before := View();
        var contacts, complete := Collisions(Separate);
        SnapNext(TheScene(), old(View()), trace, before, pass, Pass(View(), contacts, complete), hypot);
        trace := trace.(passes := trace.passes + [Pass(View(), contacts, complete)]);
        if |contacts| == 0 { break; }
      }
      SnapEnds(TheScene(), old(View()), trace, View(), |trace.passes|, hypot);
      velocities := map[];
    }
  }
}

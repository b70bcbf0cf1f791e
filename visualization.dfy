/** The chart screen (VisualizationActivity): the session range the slider offers,
    the grouping of the per-session, per-pot totals, and the pivot of those totals
    into one stacked bar per session with one segment per pot id. */
module Visualization {
  import opened Common

  /** Lexicographic order by character code, a proper prefix first. This is
      String.compareTo(a, b) < 0 for strings whose characters all lie in the Basic
      Multilingual Plane, such as the "Pot<n>" ids; Java compares UTF-16 code
      units, which orders supplementary characters differently. */
  predicate Less(a: string, b: string)
  {
    if a == [] then b != []
    else if b == [] then false
    else if a[0] != b[0] then a[0] < b[0]
    else Less(a[1..], b[1..])
  }

  lemma {:induction false} LessIrreflexive(a: string)
    ensures !Less(a, a)
  {
    if a != [] {
      LessIrreflexive(a[1..]);
    }
  }

  lemma {:induction false} LessTransitive(a: string, b: string, c: string)
    requires Less(a, b) && Less(b, c)
    ensures Less(a, c)
  {
    if a != [] && b != [] && c != [] && a[0] == b[0] && b[0] == c[0] {
      LessTransitive(a[1..], b[1..], c[1..]);
    }
  }

  lemma {:induction false} LessTotal(a: string, b: string)
    ensures a == b || Less(a, b) || Less(b, a)
  {
    if a != [] && b != [] && a[0] == b[0] {
      LessTotal(a[1..], b[1..]);
      if a[1..] == b[1..] {
        assert a == [a[0]] + a[1..] && b == [b[0]] + b[1..];
      }
    }
  }

  lemma {:induction false} LessAsymmetric(a: string, b: string)
    ensures !(Less(a, b) && Less(b, a))
  {
    if a != [] && b != [] && a[0] == b[0] {
      LessAsymmetric(a[1..], b[1..]);
    }
  }

  /** The TreeSet orders pot ids as text, so Pot10 comes before Pot2. */
  lemma TextOrderOfPotIds()
    ensures Less("Pot10", "Pot2") && !Less("Pot2", "Pot10")
  {
    assert "Pot10"[1..] == "ot10" && "Pot2"[1..] == "ot2";
    assert "ot10"[1..] == "t10" && "ot2"[1..] == "t2";
    assert "t10"[1..] == "10" && "t2"[1..] == "2";
  }

  /** Strictly ascending in String order: sorted and free of duplicates. */
  predicate StrictlySorted(s: seq<string>)
  {
    forall i, j :: 0 <= i < j < |s| ==> Less(s[i], s[j])
  }

  /** TreeSet.add on the ascending sequence of its elements. */
  function Insert(s: seq<string>, x: string): (r: seq<string>)
    requires StrictlySorted(s)
    ensures StrictlySorted(r)
    ensures forall y :: y in r <==> y in s || y == x
  {
    if s == [] then [x]
    else if x == s[0] then s
    else if Less(x, s[0]) then
      assert forall j :: 0 < j < |s| ==> Less(x, s[j]) by {
        forall j | 0 < j < |s| ensures Less(x, s[j]) { LessTransitive(x, s[0], s[j]); }
      }
      [x] + s
    else
      LessTotal(x, s[0]);
      var rest := Insert(s[1..], x);
      assert forall y :: y in rest ==> Less(s[0], y);
      [s[0]] + rest
  }

  /** A row of the per-session, per-pot totals query; a session saved without pots
      has a NULL pot id. */
  datatype PotTotal = PotTotal(sessionNumber: int, potId: Option<string>, totalSpikes: real)

  /** The session -> (pot id -> total) map after the given rows, each row written
      into its session's inner map, which is created on the session's first row. */
  function Grouped(rows: seq<PotTotal>): map<int, map<Option<string>, real>>
  {
    if rows == [] then map[]
    else
      var data := Grouped(rows[..|rows| - 1]);
      var row := rows[|rows| - 1];
      var potSpikes := if row.sessionNumber in data then data[row.sessionNumber] else map[];
      data[row.sessionNumber := potSpikes[row.potId := row.totalSpikes]]
  }

  /** fetchDataFromDatabase's cursor loop (lines 162-171). */
  method FetchData(rows: seq<PotTotal>) returns (sessionPotSpikes: map<int, map<Option<string>, real>>)
    ensures sessionPotSpikes == Grouped(rows)
  {
    sessionPotSpikes := map[];
    for i := 0 to |rows|
      invariant sessionPotSpikes == Grouped(rows[..i])
    {
      assert rows[..i + 1][..i] == rows[..i];
      var row := rows[i];
      if row.sessionNumber !in sessionPotSpikes {
        sessionPotSpikes := sessionPotSpikes[row.sessionNumber := map[]];
      }
      sessionPotSpikes := sessionPotSpikes[row.sessionNumber :=
        sessionPotSpikes[row.sessionNumber][row.potId := row.totalSpikes]];
    }
    assert rows[..|rows|] == rows;
  }

  /** Row i is the last one for its session and pot. */
  predicate LastFor(rows: seq<PotTotal>, i: int)
    requires 0 <= i < |rows|
  {
    forall j :: i < j < |rows| ==>
      rows[j].sessionNumber != rows[i].sessionNumber || rows[j].potId != rows[i].potId
  }

  /** One more row adds or overwrites exactly its own session and pot. */
  lemma GroupedStep(rows: seq<PotTotal>)
    requires rows != []
    ensures var init := Grouped(rows[..|rows| - 1]);
            var last := rows[|rows| - 1];
            && (forall s, p :: s in Grouped(rows) && p in Grouped(rows)[s] <==>
                  (s in init && p in init[s]) || (s == last.sessionNumber && p == last.potId))
            && (forall s, p :: s in init && p in init[s] && (s != last.sessionNumber || p != last.potId) ==>
                  Grouped(rows)[s][p] == init[s][p])
            && Grouped(rows)[last.sessionNumber][last.potId] == last.totalSpikes
  {
    var init := Grouped(rows[..|rows| - 1]);
    var last := rows[|rows| - 1];
    var potSpikes := if last.sessionNumber in init then init[last.sessionNumber] else map[];
    var grouped := init[last.sessionNumber := potSpikes[last.potId := last.totalSpikes]];
    assert Grouped(rows) == grouped;
    forall s, p
      ensures s in grouped && p in grouped[s] <==>
              (s in init && p in init[s]) || (s == last.sessionNumber && p == last.potId)
    {
    }
  }

  /** The grouped data has a total for session s and pot p. */
  predicate HasEntry(data: map<int, map<Option<string>, real>>, s: int, p: Option<string>)
  {
    s in data && p in data[s]
  }

  /** Some row is for session s and pot p. */
  predicate Carries(rows: seq<PotTotal>, s: int, p: Option<string>)
  {
    exists i :: 0 <= i < |rows| && rows[i].sessionNumber == s && rows[i].potId == p
  }

  /** Session s has an entry for pot p exactly when some row carries both. */
  lemma {:induction false} GroupedKeysAt(rows: seq<PotTotal>, s: int, p: Option<string>)
    ensures HasEntry(Grouped(rows), s, p) <==> Carries(rows, s, p)
  {
    if rows != [] {
      var init := rows[..|rows| - 1];
      GroupedKeysAt(init, s, p);
      GroupedStep(rows);
      var inInit := s in Grouped(init) && p in Grouped(init)[s];
      var isLast := rows[|rows| - 1].sessionNumber == s && rows[|rows| - 1].potId == p;
      if inInit {
        var i :| 0 <= i < |init| && init[i].sessionNumber == s && init[i].potId == p;
        assert rows[i] == init[i];
      }
      if exists i :: 0 <= i < |rows| && rows[i].sessionNumber == s && rows[i].potId == p {
        var i :| 0 <= i < |rows| && rows[i].sessionNumber == s && rows[i].potId == p;
        if i < |init| {
          assert init[i] == rows[i];
        }
      }
    } else {
      assert Grouped(rows) == map[];
    }
  }

  /** The grouping has an entry exactly for each session and pot some row carries. */
  lemma GroupedKeys(rows: seq<PotTotal>)
    ensures forall s, p :: HasEntry(Grouped(rows), s, p) <==> Carries(rows, s, p)
  {
    forall s, p
      ensures HasEntry(Grouped(rows), s, p) <==> Carries(rows, s, p)
    {
      GroupedKeysAt(rows, s, p);
    }
  }

  /** A later row for the same session and pot overwrites an earlier one: the
      entry is the total of the last such row. */
  lemma {:induction false} GroupedLastRowWins(rows: seq<PotTotal>)
    ensures forall i :: 0 <= i < |rows| && LastFor(rows, i) ==>
              rows[i].sessionNumber in Grouped(rows) && rows[i].potId in Grouped(rows)[rows[i].sessionNumber] &&
              Grouped(rows)[rows[i].sessionNumber][rows[i].potId] == rows[i].totalSpikes
  {
    if rows != [] {
      var init := rows[..|rows| - 1];
      GroupedLastRowWins(init);
      GroupedStep(rows);
      forall i | 0 <= i < |rows| && LastFor(rows, i)
        ensures rows[i].sessionNumber in Grouped(rows) && rows[i].potId in Grouped(rows)[rows[i].sessionNumber]
        ensures Grouped(rows)[rows[i].sessionNumber][rows[i].potId] == rows[i].totalSpikes
      {
        if i < |init| {
          assert init[i] == rows[i];
          assert LastFor(init, i);
        }
      }
    }
  }

  /** Every non-null pot id in the grouped data. */
  function AllPotIds(data: map<int, map<Option<string>, real>>): set<string>
  {
    set s, p | s in data && p in data[s] && p.Some? :: p.value
  }

  /** updateChart lines 220-230: the TreeSet of the non-null pot ids of every
      session, as the ascending list made from it. Sessions and pots are visited in
      the HashMaps' order, which the model leaves open. */
  method CollectPotIds(data: map<int, map<Option<string>, real>>) returns (sortedPotIds: seq<string>)
    ensures StrictlySorted(sortedPotIds)
    ensures forall x :: x in sortedPotIds <==> x in AllPotIds(data)
  {
    sortedPotIds := [];
    var sessions := data.Keys;
    while sessions != {}
      invariant sessions <= data.Keys
      invariant StrictlySorted(sortedPotIds)
      invariant forall x :: x in sortedPotIds <==>
                  exists s, p :: s in data && s !in sessions && p in data[s] && p == Some(x)
      decreases |sessions|
    {
      EmptyIntSetIfNoElement(sessions);
      var s :| s in sessions;
      var potSpikes := data[s];
      var pots := potSpikes.Keys;
      while pots != {}
        invariant pots <= potSpikes.Keys
        invariant StrictlySorted(sortedPotIds)
        invariant forall x :: x in sortedPotIds <==>
                    (exists s', p :: s' in data && s' !in sessions && p in data[s'] && p == Some(x)) ||
                    (Some(x) in potSpikes && Some(x) !in pots)
        decreases |pots|
      {
        EmptyIfNoElement(pots);
        var potId :| potId in pots;
        if potId.Some? {
          sortedPotIds := Insert(sortedPotIds, potId.value);
        }
        pots := pots - {potId};
      }
      sessions := sessions - {s};
    }
  }

  /** updateChart lines 241-249: one session's totals laid out along the pot ids,
      0 where the session has no total for a pot. */
  method PivotSession(potSpikes: map<Option<string>, real>, sortedPotIds: seq<string>)
    returns (spikesArray: array<real>)
    ensures fresh(spikesArray)
    ensures spikesArray.Length == |sortedPotIds|
    ensures forall j :: 0 <= j < |sortedPotIds| ==>
              spikesArray[j] == GetOrDefault(potSpikes, Some(sortedPotIds[j]), 0.0)
  {
    spikesArray := new real[|sortedPotIds|];
    var i := 0;
    for k := 0 to |sortedPotIds|
      invariant i == k
      invariant forall j :: 0 <= j < i ==> spikesArray[j] == GetOrDefault(potSpikes, Some(sortedPotIds[j]), 0.0)
    {
      spikesArray[i] := GetOrDefault(potSpikes, Some(sortedPotIds[k]), 0.0);
      i := i + 1;
    }
  }

  /** A stacked bar: the session number on the x axis and one value per pot id. */
  datatype BarEntry = BarEntry(x: int, yVals: seq<real>)

  /** What updateChart shows: nothing for empty data, otherwise the pot ids, the
      bars and their labels. */
  datatype ChartUpdate =
    | EmptyChart
    | Chart(potIds: seq<string>, yValues: seq<BarEntry>, labels: seq<string>)

  /** The bar of a session holds its total for each pot id in order, 0 where none. */
  predicate BarOf(entry: BarEntry, data: map<int, map<Option<string>, real>>, potIds: seq<string>)
  {
    && entry.x in data
    && |entry.yVals| == |potIds|
    && forall j :: 0 <= j < |potIds| ==> entry.yVals[j] == GetOrDefault(data[entry.x], Some(potIds[j]), 0.0)
  }

  /** updateChart (lines 213-254): one bar and one "Session n" label per session in
      the data, each bar laid out along the ascending pot ids. */
  method UpdateChart(data: map<int, map<Option<string>, real>>) returns (update: ChartUpdate)
    ensures update.EmptyChart? <==> data == map[]
    ensures update.Chart? ==> StrictlySorted(update.potIds)
    ensures update.Chart? ==> forall x :: x in update.potIds <==> x in AllPotIds(data)
    ensures update.Chart? ==> |update.yValues| == |update.labels| == |data.Keys|
    ensures update.Chart? ==> forall k :: 0 <= k < |update.yValues| ==>
              BarOf(update.yValues[k], data, update.potIds) &&
              update.labels[k] == "Session " + IntToString(update.yValues[k].x)
    ensures update.Chart? ==> forall k, l :: 0 <= k < l < |update.yValues| ==>
              update.yValues[k].x != update.yValues[l].x
    ensures update.Chart? ==> forall s :: s in data ==>
              exists k :: 0 <= k < |update.yValues| && update.yValues[k].x == s
  {
    if data == map[] {
      return EmptyChart;
    }
    var sortedPotIds := CollectPotIds(data);
    var yValues: seq<BarEntry> := [];
    var labels: seq<string> := [];
    var sessions := data.Keys;
    while sessions != {}
      invariant ChartSoFar(data, sortedPotIds, sessions, yValues, labels)
      decreases |sessions|
    {
      EmptyIntSetIfNoElement(sessions);
      var sessionNumber :| sessionNumber in sessions;
      var spikesArray := PivotSession(data[sessionNumber], sortedPotIds);
      var entry := BarEntry(sessionNumber, spikesArray[..]);
      ChartStep(data, sortedPotIds, sessions, yValues, labels, entry);
      yValues := yValues + [entry];
      labels := labels + ["Session " + IntToString(sessionNumber)];
      sessions := sessions - {sessionNumber};
    }
    update := Chart(sortedPotIds, yValues, labels);
  }

  /** The loop of updateChart has made one bar and one label for each session not
      in sessions. */
  predicate ChartSoFar(data: map<int, map<Option<string>, real>>, potIds: seq<string>, sessions: set<int>,
                       yValues: seq<BarEntry>, labels: seq<string>)
  {
    && sessions <= data.Keys
    && |yValues| == |labels| == |data.Keys| - |sessions|
    && (forall k :: 0 <= k < |yValues| ==>
          BarOf(yValues[k], data, potIds) && yValues[k].x !in sessions &&
          labels[k] == "Session " + IntToString(yValues[k].x))
    && (forall k, l :: 0 <= k < l < |yValues| ==> yValues[k].x != yValues[l].x)
    && (forall s :: s in data && s !in sessions ==> exists k :: 0 <= k < |yValues| && yValues[k].x == s)
  }

  /** Adding the bar and label of one more session keeps the loop's account. */
  lemma ChartStep(data: map<int, map<Option<string>, real>>, potIds: seq<string>, sessions: set<int>,
                  yValues: seq<BarEntry>, labels: seq<string>, entry: BarEntry)
    requires ChartSoFar(data, potIds, sessions, yValues, labels)
    requires entry.x in sessions && BarOf(entry, data, potIds)
    ensures ChartSoFar(data, potIds, sessions - {entry.x}, yValues + [entry],
                       labels + ["Session " + IntToString(entry.x)])
  {
    assert |sessions - {entry.x}| == |sessions| - 1;
    ChartStepBars(data, potIds, sessions, yValues, labels, entry);
    ChartStepDistinct(sessions, yValues, entry);
    ChartStepCovers(data, sessions, yValues, entry);
  }

  lemma ChartStepBars(data: map<int, map<Option<string>, real>>, potIds: seq<string>, sessions: set<int>,
                      yValues: seq<BarEntry>, labels: seq<string>, entry: BarEntry)
    requires |yValues| == |labels|
    requires forall k :: 0 <= k < |yValues| ==>
               BarOf(yValues[k], data, potIds) && yValues[k].x !in sessions &&
               labels[k] == "Session " + IntToString(yValues[k].x)
    requires entry.x in sessions && BarOf(entry, data, potIds)
    ensures var yValues', labels' := yValues + [entry], labels + ["Session " + IntToString(entry.x)];
            forall k :: 0 <= k < |yValues'| ==>
              BarOf(yValues'[k], data, potIds) && yValues'[k].x !in sessions - {entry.x} &&
              labels'[k] == "Session " + IntToString(yValues'[k].x)
  {
    var yValues' := yValues + [entry];
    var labels' := labels + ["Session " + IntToString(entry.x)];
    forall k | 0 <= k < |yValues'|
      ensures BarOf(yValues'[k], data, potIds) && yValues'[k].x !in sessions - {entry.x}
      ensures labels'[k] == "Session " + IntToString(yValues'[k].x)
    {
      if k < |yValues| {
        assert yValues'[k] == yValues[k] && labels'[k] == labels[k];
      }
    }
  }

  lemma ChartStepDistinct(sessions: set<int>, yValues: seq<BarEntry>, entry: BarEntry)
    requires forall k :: 0 <= k < |yValues| ==> yValues[k].x !in sessions
    requires forall k, l :: 0 <= k < l < |yValues| ==> yValues[k].x != yValues[l].x
    requires entry.x in sessions
    ensures forall k, l :: 0 <= k < l < |yValues + [entry]| ==> (yValues + [entry])[k].x != (yValues + [entry])[l].x
  {
    var yValues' := yValues + [entry];
    forall k, l | 0 <= k < l < |yValues'|
      ensures yValues'[k].x != yValues'[l].x
    {
      assert yValues'[k] == yValues[k];
    }
  }

  lemma ChartStepCovers(data: map<int, map<Option<string>, real>>, sessions: set<int>, yValues: seq<BarEntry>,
                        entry: BarEntry)
    requires forall s :: s in data && s !in sessions ==> exists k :: 0 <= k < |yValues| && yValues[k].x == s
    ensures forall s :: s in data && s !in sessions - {entry.x} ==>
              exists k :: 0 <= k < |yValues + [entry]| && (yValues + [entry])[k].x == s
  {
    var yValues' := yValues + [entry];
    forall s | s in data && s !in sessions - {entry.x}
      ensures exists k :: 0 <= k < |yValues'| && yValues'[k].x == s
    {
      if s == entry.x {
        assert yValues'[|yValues|].x == s;
      } else {
        var k :| 0 <= k < |yValues| && yValues[k].x == s;
        assert yValues'[k].x == s;
      }
    }
  }

  /** What onCreate does with the user's smallest and largest session numbers
      (lines 68-117; both read as 0 when the user has no session). */
  datatype RangeDecision =
    | NotLoggedIn
    | NoSessions
    | SessionRange(sliderEnabled: bool, sliderRangeSet: bool, text: string)

  /** Lines 68-117. */
  function DecideRange(loggedInUserId: int, minSession: int, maxSession: int): (decision: RangeDecision)
    ensures decision.NotLoggedIn? <==> loggedInUserId == -1
    ensures decision.NoSessions? <==> loggedInUserId != -1 && minSession == 0 && maxSession == 0
    ensures decision.SessionRange? ==> (decision.sliderEnabled <==> minSession != maxSession)
    ensures decision.SessionRange? ==> (decision.sliderRangeSet <==> minSession < maxSession)
    ensures decision.SessionRange? ==>
              decision.text == "Session " + IntToString(minSession) + " - " + IntToString(maxSession)
  {
    if loggedInUserId == -1 then NotLoggedIn
    else if minSession == 0 && maxSession == 0 then NoSessions
    else
      SessionRange(minSession != maxSession, minSession < maxSession,
                   "Session " + IntToString(minSession) + " - " + IntToString(maxSession))
  }

  /** Session numbers start at 1, so a signed-in user with at least one session
      always gets a range, and the slider is set exactly when there are two or more
      different session numbers. */
  lemma RangeOfSessionNumbers(loggedInUserId: int, numbers: set<int>, minSession: int, maxSession: int)
    requires loggedInUserId != -1
    requires forall n :: n in numbers ==> n >= 1
    requires minSession in numbers && maxSession in numbers
    requires forall n :: n in numbers ==> minSession <= n <= maxSession
    ensures DecideRange(loggedInUserId, minSession, maxSession).SessionRange?
    ensures DecideRange(loggedInUserId, minSession, maxSession).sliderRangeSet <==>
              exists a, b :: a in numbers && b in numbers && a != b
  {
    if exists a, b :: a in numbers && b in numbers && a != b {
      var a, b :| a in numbers && b in numbers && a != b;
      assert minSession < maxSession;
    }
  }
}

/**
  The second half of lib/csvParser.ts: `parseCSVToQuizzes`, which splits the
  question bank into lines, drops the header, keeps the rows with at least
  eight fields, groups them by topic in order of first appearance and turns
  every group into a quiz; and `getCategoryFromTopic`.
 */
module QuizLoader {
  import opened Basics
  import opened Text
  import opened CsvParser

  /** One data row of the bank (`CSVQuizQuestion`). */
  datatype Row = Row(topic: string, question: string,
                     optionA: string, optionB: string, optionC: string, optionD: string,
                     correctAnswer: string, difficulty: string)

  /** A question of a loaded quiz; every loaded question is single choice. */
  datatype Question = Question(id: string, question: string, options: seq<string>, correctAnswer: string)

  datatype Quiz = Quiz(id: string, title: string, description: string, duration: int,
                       questions: seq<Question>, category: string)

  // ---------------------------------------------------------------------------
  // Rows
  // ---------------------------------------------------------------------------

  /** The row a field list stands for, when it has the eight columns. */
  function RowOf(values: seq<string>): (r: Option<Row>)
    ensures r.Some? <==> |values| >= 8
    ensures r.Some? ==> (r.value.topic == values[0] && r.value.question == values[1]
                     && [r.value.optionA, r.value.optionB, r.value.optionC, r.value.optionD] == values[2..6]
                     && r.value.correctAnswer == values[6] && r.value.difficulty == values[7])
  {
    if |values| >= 8 then
      Some(Row(values[0], values[1], values[2], values[3], values[4], values[5], values[6], values[7]))
    else None
  }

  /** The rows of the data lines, in order; a line whose parse has fewer
      than eight fields is dropped without a trace. */
  function DataRows(lines: seq<string>): (rows: seq<Row>)
    ensures |rows| <= |lines|
  {
    if lines == [] then []
    else
      var init := DataRows(lines[..|lines| - 1]);
      match RowOf(ParseLine(lines[|lines| - 1]))
      case Some(r) => init + [r]
      case None => init
  }

  /** A single line gives a row exactly when it has at least seven
      separating commas. */
  lemma DataRowsSingle(line: string)
    ensures |DataRows([line])| == (if UnquotedCommas(line) >= 7 then 1 else 0)
    ensures UnquotedCommas(line) >= 7 ==> DataRows([line]) == [RowOf(ParseLine(line)).value]
  {
    assert [line][..0] == [];
  }

  /** Lines are read independently of one another. */
  lemma {:induction false} DataRowsAppend(a: seq<string>, b: seq<string>)
    ensures DataRows(a + b) == DataRows(a) + DataRows(b)
    decreases |b|
  {
    if b == [] {
      assert a + b == a;
    } else {
      var n := |b|;
      assert (a + b)[..|a + b| - 1] == a + b[..n - 1];
      assert (a + b)[|a + b| - 1] == b[n - 1];
      DataRowsAppend(a, b[..n - 1]);
    }
  }

  // ---------------------------------------------------------------------------
  // Grouping by topic
  // ---------------------------------------------------------------------------

  /** One entry of the `topicGroups` map: a topic and its rows so far. */
  datatype Group = Group(topic: string, rows: seq<Row>)

  /** The position of the group for topic `t` at or after `i`, or `|groups|`
      when there is none (`topicGroups.has` / `get`). */
  function FindGroup(groups: seq<Group>, t: string, i: nat): (k: nat)
    requires i <= |groups|
    ensures i <= k <= |groups|
    ensures k < |groups| ==> groups[k].topic == t
    ensures forall j :: i <= j < k ==> groups[j].topic != t
    decreases |groups| - i
  {
    if i == |groups| then i
    else if groups[i].topic == t then i
    else FindGroup(groups, t, i + 1)
  }

  /** One iteration of the `forEach` that fills `topicGroups`: push onto the
      group of the row's topic, creating it at the end when missing. */
  function AddRow(groups: seq<Group>, r: Row): seq<Group>
  {
    var k := FindGroup(groups, r.topic, 0);
    if k < |groups| then groups[k := groups[k].(rows := groups[k].rows + [r])]
    else groups + [Group(r.topic, [r])]
  }

  function GroupByTopic(rows: seq<Row>): seq<Group>
  {
    if rows == [] then [] else AddRow(GroupByTopic(rows[..|rows| - 1]), rows[|rows| - 1])
  }

  /** Reference definition: the distinct topics of `rows`, each at the
      position of its first row. */
  function Topics(rows: seq<Row>): seq<string>
  {
    if rows == [] then []
    else
      var init := Topics(rows[..|rows| - 1]);
      var t := rows[|rows| - 1].topic;
      if t in init then init else init + [t]
  }

  /** Reference definition: the rows with topic `t`, in their order. */
  function WithTopic(rows: seq<Row>, t: string): seq<Row>
  {
    if rows == [] then []
    else
      var last := rows[|rows| - 1];
      WithTopic(rows[..|rows| - 1], t) + (if last.topic == t then [last] else [])
  }

  /** The set of topics occurring in `rows`. */
  function TopicSet(rows: seq<Row>): set<string>
  {
    set i | 0 <= i < |rows| :: rows[i].topic
  }

  /** The index of the first row with topic `t`. */
  function FirstRow(rows: seq<Row>, t: string): (k: nat)
    requires t in TopicSet(rows)
    ensures k < |rows| && rows[k].topic == t
    ensures forall j :: 0 <= j < k ==> rows[j].topic != t
  {
    if rows[0].topic == t then 0
    else
      assert t in TopicSet(rows[1..]) by {
        var i :| 0 <= i < |rows| && rows[i].topic == t;
        assert rows[1..][i - 1] == rows[i];
      }
      1 + FirstRow(rows[1..], t)
  }

  lemma {:induction false} FirstRowAppend(rows: seq<Row>, r: Row, t: string)
    requires t in TopicSet(rows)
    ensures t in TopicSet(rows + [r]) && FirstRow(rows + [r], t) == FirstRow(rows, t)
  {
    var k := FirstRow(rows, t);
    assert (rows + [r])[k] == rows[k];
  }

  /** What `Topics` promises: every topic once, nothing else, in the order
      of the topics' first rows. */
  ghost predicate TopicsOk(rows: seq<Row>)
  {
    && (forall i, j :: 0 <= i < j < |Topics(rows)| ==> Topics(rows)[i] != Topics(rows)[j])
    && (forall t :: t in Topics(rows) <==> t in TopicSet(rows))
    && (forall i, j :: 0 <= i < j < |Topics(rows)| ==>
          Topics(rows)[i] in TopicSet(rows) && Topics(rows)[j] in TopicSet(rows) &&
          FirstRow(rows, Topics(rows)[i]) < FirstRow(rows, Topics(rows)[j]))
  }

  /** `Topics` lists every topic once, nothing else, in the order of the
      topics' first rows. */
  lemma {:induction false} TopicsFacts(rows: seq<Row>)
    ensures forall i, j :: 0 <= i < j < |Topics(rows)| ==> Topics(rows)[i] != Topics(rows)[j]
    ensures forall t :: t in Topics(rows) <==> t in TopicSet(rows)
    ensures forall i, j :: 0 <= i < j < |Topics(rows)| ==>
              Topics(rows)[i] in TopicSet(rows) && Topics(rows)[j] in TopicSet(rows) &&
              FirstRow(rows, Topics(rows)[i]) < FirstRow(rows, Topics(rows)[j])
  {
    if rows != [] {
      TopicsFacts(rows[..|rows| - 1]);
      TopicsStep(rows);
    }
  }

  /** The topics of a row list are those before its last row, plus that
      row's. */
  lemma TopicSetSnoc(rows: seq<Row>)
    requires rows != []
    ensures TopicSet(rows) == TopicSet(rows[..|rows| - 1]) + {rows[|rows| - 1].topic}
  {
    var n := |rows|;
    var init := rows[..n - 1];
    forall t | t in TopicSet(rows)
      ensures t in TopicSet(init) + {rows[n - 1].topic}
    {
      var i :| 0 <= i < n && rows[i].topic == t;
      if i < n - 1 {
        assert init[i] == rows[i];
      }
    }
    forall t | t in TopicSet(init)
      ensures t in TopicSet(rows)
    {
      var i :| 0 <= i < n - 1 && init[i].topic == t;
      assert rows[i] == init[i];
    }
  }

  lemma TopicsStep(rows: seq<Row>)
    requires rows != [] && TopicsOk(rows[..|rows| - 1])
    ensures TopicsOk(rows)
  {
    if rows[|rows| - 1].topic in Topics(rows[..|rows| - 1]) {
      TopicsStepSeen(rows);
    } else {
      TopicsStepNew(rows);
    }
  }

  /** The last row's topic was seen before: the topics stay as they were. */
  lemma TopicsStepSeen(rows: seq<Row>)
    requires rows != [] && TopicsOk(rows[..|rows| - 1])
    requires rows[|rows| - 1].topic in Topics(rows[..|rows| - 1])
    ensures TopicsOk(rows)
  {
    var n := |rows|;
    var init := rows[..n - 1];
    var r := rows[n - 1];
    assert rows == init + [r];
    var T0 := Topics(init);
    var T := Topics(rows);
    TopicSetSnoc(rows);
    forall t | t in TopicSet(init)
      ensures t in TopicSet(rows) && FirstRow(rows, t) == FirstRow(init, t)
    {
      FirstRowAppend(init, r, t);
    }
  }

  /** The last row brings a new topic: it goes at the end. */
  lemma TopicsStepNew(rows: seq<Row>)
    requires rows != [] && TopicsOk(rows[..|rows| - 1])
    requires rows[|rows| - 1].topic !in Topics(rows[..|rows| - 1])
    ensures TopicsOk(rows)
  {
    var n := |rows|;
    var init := rows[..n - 1];
    var r := rows[n - 1];
    assert rows == init + [r];
    var T0 := Topics(init);
    var T := Topics(rows);
    TopicSetSnoc(rows);
    forall t | t in TopicSet(init)
      ensures t in TopicSet(rows) && FirstRow(rows, t) == FirstRow(init, t)
    {
      FirstRowAppend(init, r, t);
    }
    assert r.topic !in TopicSet(init);
    assert FirstRow(rows, r.topic) == n - 1;
    forall i, j | 0 <= i < j < |T|
      ensures T[i] in TopicSet(rows) && T[j] in TopicSet(rows) && FirstRow(rows, T[i]) < FirstRow(rows, T[j])
    {
      if j < |T0| {
        assert T[i] == T0[i] && T[j] == T0[j];
      } else {
        assert T[i] == T0[i];
        assert FirstRow(init, T0[i]) < n - 1;
      }
    }
  }

  lemma {:induction false} WithTopicAbsent(rows: seq<Row>, t: string)
    requires t !in Topics(rows)
    ensures WithTopic(rows, t) == []
  {
    if rows != [] {
      WithTopicAbsent(rows[..|rows| - 1], t);
    }
  }

  /** The groups agree with the reference definitions: one per topic, in
      `Topics` order, holding exactly `WithTopic`. */
  predicate GroupsMatch(groups: seq<Group>, rows: seq<Row>)
  {
    && |groups| == |Topics(rows)|
    && forall i :: 0 <= i < |groups| ==>
         groups[i].topic == Topics(rows)[i] && groups[i].rows == WithTopic(rows, groups[i].topic)
  }

  lemma AddRowMatches(groups: seq<Group>, rows: seq<Row>, r: Row)
    requires GroupsMatch(groups, rows)
    ensures GroupsMatch(AddRow(groups, r), rows + [r])
  {
    if FindGroup(groups, r.topic, 0) < |groups| {
      AddRowExisting(groups, rows, r);
    } else {
      AddRowNew(groups, rows, r);
    }
  }

  /** A row whose topic already has a group joins that group. */
  lemma AddRowExisting(groups: seq<Group>, rows: seq<Row>, r: Row)
    requires GroupsMatch(groups, rows) && FindGroup(groups, r.topic, 0) < |groups|
    ensures GroupsMatch(AddRow(groups, r), rows + [r])
  {
    var rows' := rows + [r];
    assert rows'[..|rows'| - 1] == rows;
    var T := Topics(rows);
    var k := FindGroup(groups, r.topic, 0);
    var g := AddRow(groups, r);
    assert T[k] == r.topic;
    assert Topics(rows') == T;
    TopicsFacts(rows);
    forall i | 0 <= i < |g|
      ensures g[i].topic == T[i] && g[i].rows == WithTopic(rows', g[i].topic)
    {
      if i != k {
        assert g[i] == groups[i];
        assert T[i] != T[k];
      }
    }
  }

  /** A row with a new topic opens a group at the end. */
  lemma AddRowNew(groups: seq<Group>, rows: seq<Row>, r: Row)
    requires GroupsMatch(groups, rows) && FindGroup(groups, r.topic, 0) >= |groups|
    ensures GroupsMatch(AddRow(groups, r), rows + [r])
  {
    var rows' := rows + [r];
    assert rows'[..|rows'| - 1] == rows;
    var T := Topics(rows);
    var g := AddRow(groups, r);
    assert r.topic !in T;
    WithTopicAbsent(rows, r.topic);
    assert Topics(rows') == T + [r.topic];
    forall i | 0 <= i < |g|
      ensures g[i].topic == Topics(rows')[i] && g[i].rows == WithTopic(rows', g[i].topic)
    {
      if i < |groups| {
        assert g[i] == groups[i];
        assert groups[i].topic != r.topic;
      }
    }
  }

  /** The `topicGroups` map holds one group per distinct topic, in order of
      first appearance, each with all of its topic's rows in row order. */
  lemma {:induction false} GroupByTopicMatches(rows: seq<Row>)
    ensures GroupsMatch(GroupByTopic(rows), rows)
  {
    if rows != [] {
      var init := rows[..|rows| - 1];
      GroupByTopicMatches(init);
      AddRowMatches(GroupByTopic(init), init, rows[|rows| - 1]);
      assert init + [rows[|rows| - 1]] == rows;
    }
  }

  // ---------------------------------------------------------------------------
  // Categories
  // ---------------------------------------------------------------------------

  /** `getCategoryFromTopic`: the ten-entry table, and "General" for any
      other topic. */
  function CategoryOf(topic: string): (c: string)
    ensures c in {"Technology", "Science", "Engineering", "General", "Mathematics",
                  "Entertainment", "Arts & Literature"}
    ensures topic !in TableTopics() ==> c == "General"
  {
    if topic == "Computer Science Fundamentals" then "Technology"
    else if topic == "Physics" then "Science"
    else if topic == "Biology" then "Science"
    else if topic == "Mechanical Engineering" then "Engineering"
    else if topic == "General Knowledge" then "General"
    else if topic == "Programming" then "Technology"
    else if topic == "Android Development" then "Technology"
    else if topic == "Aptitude" then "Mathematics"
    else if topic == "Movies" then "Entertainment"
    else if topic == "Literature" then "Arts & Literature"
    else "General"
  }

  /** The keys of the category table. */
  function TableTopics(): set<string>
  {
    {"Computer Science Fundamentals", "Physics", "Biology", "Mechanical Engineering",
     "General Knowledge", "Programming", "Android Development", "Aptitude", "Movies",
     "Literature"}
  }

  /** What a JavaScript property read can produce here: a string, or one of
      the members every object literal inherits from `Object.prototype`
      (a function, or the prototype itself for `__proto__`). */
  datatype LookupValue = Str(s: string) | Inherited(name: string)

  /** The names an object literal answers to without declaring them. */
  function InheritedNames(): set<string>
  {
    {"constructor", "toString", "toLocaleString", "valueOf", "hasOwnProperty",
     "isPrototypeOf", "propertyIsEnumerable", "__proto__", "__defineGetter__",
     "__defineSetter__", "__lookupGetter__", "__lookupSetter__"}
  }

  /** `categoryMap[topic] || 'General'` as written: an inherited member is
      truthy, so it passes the `||` and becomes the quiz's category. */
  function CategoryLookupAsWritten(topic: string): (v: LookupValue)
    ensures topic !in InheritedNames() ==> v == Str(CategoryOf(topic))
    ensures topic in InheritedNames() ==> v == Inherited(topic)
  {
    if topic in TableTopics() then Str(CategoryOf(topic))
    else if topic in InheritedNames() then Inherited(topic)
    else Str("General")
  }

  /** A bank row whose topic is `constructor` gets a function, not a
      category name. */
  lemma CategoryLookupCounterexample()
    ensures !CategoryLookupAsWritten("constructor").Str?
    ensures CategoryOf("constructor") == "General"
  {
  }

  // ---------------------------------------------------------------------------
  // Quizzes
  // ---------------------------------------------------------------------------

  /** The question built from the row at position `index` of its group. */
  function MakeQuestion(r: Row, index: nat): (q: Question)
    ensures q.id == "q" + NatToString(index + 1)
    ensures q.question == r.question && q.correctAnswer == r.correctAnswer
    ensures q.options == [r.optionA, r.optionB, r.optionC, r.optionD]
  {
    Question("q" + NatToString(index + 1), r.question, [r.optionA, r.optionB, r.optionC, r.optionD], r.correctAnswer)
  }

  /** The quiz built from the group at position `number - 1`. */
  function MakeQuiz(g: Group, number: nat): (z: Quiz)
    ensures z.id == NatToString(number) && z.title == g.topic
    ensures z.description == "Test your knowledge in " + g.topic
    ensures z.duration == Max(180, 30 * |g.rows|) && z.duration >= 180
    ensures z.category == CategoryOf(g.topic)
    ensures |z.questions| == |g.rows|
    ensures forall j :: 0 <= j < |g.rows| ==> z.questions[j] == MakeQuestion(g.rows[j], j)
  {
    Quiz(NatToString(number), g.topic, "Test your knowledge in " + g.topic,
         Max(180, |g.rows| * 30),
         seq(|g.rows|, j requires 0 <= j < |g.rows| => MakeQuestion(g.rows[j], j)),
         CategoryOf(g.topic))
  }

  /** The bank's lines after the header (`lines.slice(1)` of
      `content.trim().split('\n')`). */
  function DataLines(content: string): (lines: seq<string>)
    ensures |lines| == Count(Trim(content), '\n')
    ensures forall i :: 0 <= i < |lines| ==> '\n' !in lines[i]
  {
    SplitOn(Trim(content), '\n')[1..]
  }

  /** `parseCSVToQuizzes`: the kept rows of the bank, grouped and numbered. */
  function ParseQuizzes(content: string): (quizzes: seq<Quiz>)
  {
    QuizzesOf(DataRows(DataLines(content)))
  }

  /** One quiz per group of `rows`, numbered from "1". */
  function QuizzesOf(rows: seq<Row>): (quizzes: seq<Quiz>)
  {
    var groups := GroupByTopic(rows);
    seq(|groups|, i requires 0 <= i < |groups| => MakeQuiz(groups[i], i + 1))
  }

  /** The quizzes of kept rows: one per distinct topic, in order of first
      appearance, numbered "1", "2", ...; each holds all its topic's rows
      in row order, with ids q1..qn, options A-D in column order and the
      seventh column as correct answer, a duration of 30 seconds a question
      but at least 180, and the table category. */
  lemma QuizzesSpec(rows: seq<Row>)
    ensures var qs := QuizzesOf(rows);
            && |qs| == |Topics(rows)|
            && forall i :: 0 <= i < |qs| ==>
                 var q := qs[i];
                 var own := WithTopic(rows, q.title);
                 && q.id == NatToString(i + 1)
                 && q.title == Topics(rows)[i]
                 && q.description == "Test your knowledge in " + q.title
                 && q.category == CategoryOf(q.title)
                 && q.duration == Max(180, 30 * |own|)
                 && |q.questions| == |own|
                 && forall j :: 0 <= j < |own| ==>
                      && q.questions[j].id == "q" + NatToString(j + 1)
                      && q.questions[j].question == own[j].question
                      && q.questions[j].options == [own[j].optionA, own[j].optionB, own[j].optionC, own[j].optionD]
                      && q.questions[j].correctAnswer == own[j].correctAnswer
  {
    GroupByTopicMatches(rows);
  }

  /** Quiz ids are pairwise distinct. */
  lemma QuizzesDistinctIds(rows: seq<Row>)
    ensures var qs := QuizzesOf(rows);
            forall i, j :: 0 <= i < j < |qs| ==> qs[i].id != qs[j].id
  {
    var qs := QuizzesOf(rows);
    forall i, j | 0 <= i < j < |qs|
      ensures qs[i].id != qs[j].id
    {
      NatToStringInjective(i + 1, j + 1);
    }
  }

  /** The quizzes' titles are the distinct topics, in order. */
  lemma QuizzesTitles(rows: seq<Row>)
    ensures |QuizzesOf(rows)| == |Topics(rows)|
    ensures forall i :: 0 <= i < |QuizzesOf(rows)| ==> QuizzesOf(rows)[i].title == Topics(rows)[i]
  {
    GroupByTopicMatches(rows);
  }

  /** Quiz titles are pairwise distinct: no topic is split over two quizzes. */
  lemma QuizzesDistinctTitles(rows: seq<Row>)
    ensures var qs := QuizzesOf(rows);
            forall i, j :: 0 <= i < j < |qs| ==> qs[i].title != qs[j].title
  {
    QuizzesTitles(rows);
    TopicsFacts(rows);
  }

  /** Every kept row has a quiz of its topic. */
  lemma QuizzesCover(rows: seq<Row>, r: Row)
    requires r in rows
    ensures exists i :: 0 <= i < |QuizzesOf(rows)| && QuizzesOf(rows)[i].title == r.topic
  {
    QuizzesTitles(rows);
    TopicsFacts(rows);
    var k :| 0 <= k < |rows| && rows[k] == r;
    assert r.topic in TopicSet(rows);
    var i :| 0 <= i < |Topics(rows)| && Topics(rows)[i] == r.topic;
    assert QuizzesOf(rows)[i].title == r.topic;
  }

  /** An empty bank, or one that is only a header line, loads no quiz and
      does not fail. */
  lemma HeaderOnly(content: string)
    requires '\n' !in Trim(content)
    ensures ParseQuizzes(content) == []
  {
    assert |SplitOn(Trim(content), '\n')| == 1;
  }

  /** The entry point on a bank laid out as a header line followed by
      data lines: exactly the quizzes of those lines' rows, whatever the
      header says. */
  lemma ParseQuizzesLines(content: string, header: string, lines: seq<string>)
    requires '\n' !in header && forall i :: 0 <= i < |lines| ==> '\n' !in lines[i]
    requires Trim(content) == JoinWith([header] + lines, '\n')
    ensures ParseQuizzes(content) == QuizzesOf(DataRows(lines))
  {
    var parts := [header] + lines;
    assert forall i :: 0 <= i < |parts| ==> '\n' !in parts[i] by {
      forall i | 0 <= i < |parts| ensures '\n' !in parts[i] {
        if i > 0 {
          assert parts[i] == lines[i - 1];
        }
      }
    }
    SplitOnJoin(parts, '\n');
    assert parts[1..] == lines;
  }
}

/**
 * AppMonitor from clock/app_monitor.py: once a second the focused window (or
 * the browser's host) is reported, and a second is credited to it only when it
 * was already the one in focus; a change of focus looks its category up in
 * the classify_app table, asking the classifier (and caching its verdict) on a
 * miss. AFK ticks credit "afk_time". At the end of a session the totals are
 * added to the day's rows of usage_data, retrying while the database is locked.
 *
 * SQLite, the classifier and the clock are not modelled as code: their
 * outcomes are parameters (TransitionOracle, the per-attempt Attempt values,
 * `now`/`lastActivity`, `today`).
 */
module Monitor {
  import opened Wrappers
  import Text
  import Dates

  const AfkAppName := "afk_time"
  const SaveRetries := 5

  /* ---------------- app_times: an insertion-ordered dict ---------------- */

  /**
   * app_times is a Python dict: the map of its contents plus the order in
   * which its keys were first inserted.
   */
  ghost predicate OrderedDict(order: seq<string>, times: map<string, int>)
  {
    && (forall i, j :: 0 <= i < j < |order| ==> order[i] != order[j])
    && (forall k :: k in times <==> k in order)
  }

  /** app_times[name] = app_times.get(name, 0) + 1 on the contents... */
  function Credit(times: map<string, int>, name: string): (r: map<string, int>)
    ensures r.Keys == times.Keys + {name}
    ensures r[name] == (if name in times then times[name] else 0) + 1
    ensures forall k <- times :: k != name ==> r[k] == times[k]
  {
    times[name := (if name in times then times[name] else 0) + 1]
  }

  /** ...and on the key order: a new key goes last, an old one keeps its place. */
  function Remember(order: seq<string>, name: string): seq<string>
  {
    if name in order then order else order + [name]
  }

  lemma CreditKeepsOrderedDict(order: seq<string>, times: map<string, int>, name: string)
    requires OrderedDict(order, times)
    ensures OrderedDict(Remember(order, name), Credit(times, name))
  {
  }

  /** The seconds recorded against the keys in `keys`; over app_times' own keys, its total time. */
  function Total(keys: seq<string>, times: map<string, int>): int
    requires forall k <- keys :: k in times
  {
    if keys == [] then 0 else times[keys[0]] + Total(keys[1..], times)
  }

  lemma {:induction false} TotalAppend(keys: seq<string>, k: string, times: map<string, int>)
    requires forall x <- keys :: x in times
    requires k in times
    ensures Total(keys + [k], times) == Total(keys, times) + times[k]
  {
    if keys != [] {
      assert (keys + [k])[1..] == keys[1..] + [k];
      TotalAppend(keys[1..], k, times);
    }
  }

  /** Changing one key's value moves the sum by the difference when the key is listed once, and not at all when it is not listed. */
  lemma {:induction false} TotalUpdate(keys: seq<string>, times: map<string, int>, k: string, v: int)
    requires forall x <- keys :: x in times
    requires forall i, j :: 0 <= i < j < |keys| ==> keys[i] != keys[j]
    ensures k in keys && k in times ==> Total(keys, times[k := v]) == Total(keys, times) - times[k] + v
    ensures k !in keys ==> Total(keys, times[k := v]) == Total(keys, times)
  {
    if keys != [] {
      assert forall x <- keys[1..] :: x in times;
      assert keys[0] !in keys[1..] by {
        forall i | 0 <= i < |keys[1..]|
          ensures keys[1..][i] != keys[0]
        {
          assert keys[1..][i] == keys[i + 1];
        }
      }
      TotalUpdate(keys[1..], times, k, v);
    }
  }

  /** A credited second adds exactly one second to the total. */
  lemma CreditAddsOneSecond(order: seq<string>, times: map<string, int>, name: string)
    requires OrderedDict(order, times)
    ensures OrderedDict(Remember(order, name), Credit(times, name))
    ensures Total(Remember(order, name), Credit(times, name)) == Total(order, times) + 1
  {
    var v := (if name in times then times[name] else 0) + 1;
    TotalUpdate(order, times, name, v);
    if name !in order {
      TotalAppend(order, name, Credit(times, name));
    }
  }

  /* ---------------- The category lookup on a change of focus ---------------- */

  /**
   * What the database and the classifier do on one change of focus:
   * whether the SELECT on classify_app succeeds, the classifier's verdict
   * (None when it raises) and whether the INSERT and commit succeed.
   */
  datatype TransitionOracle = TransitionOracle(lookupOk: bool, verdict: Option<string>, storeOk: bool)

  /** The classify_app table afterwards, the category afterwards, and whether the classifier was asked. */
  datatype Classification = Classification(table: map<string, string>, category: Option<string>, consulted: bool)

  /**
   * The lookup of _update_app_time: a cached category is used as is; on a miss
   * the classifier is asked and its verdict is stored and used. Any exception
   * leaves the category and the table as they were.
   */
  function Classify(table: map<string, string>, category: Option<string>, name: string, oracle: TransitionOracle): (c: Classification)
    ensures c.table.Keys == table.Keys || c.table.Keys == table.Keys + {name}
    ensures forall k <- table :: k != name ==> c.table[k] == table[k]
    ensures c.consulted ==> name !in table
    ensures c.category != category ==> c.category.Some? && name in c.table && c.table[name] == c.category.value
  {
    if !oracle.lookupOk then Classification(table, category, false)
    else if name in table then Classification(table, Some(table[name]), false)
    else if oracle.verdict.None? || !oracle.storeOk then Classification(table, category, true)
    else Classification(table[name := oracle.verdict.value], oracle.verdict, true)
  }

  /** The classifier is asked only for a name the table does not hold, and only when the lookup itself worked. */
  lemma ClassifierOnlyOnMiss(table: map<string, string>, category: Option<string>, name: string, oracle: TransitionOracle)
    ensures Classify(table, category, name, oracle).consulted <==> oracle.lookupOk && name !in table
  {
  }

  /**
   * The four cases of the lookup: a failed SELECT changes nothing; a hit reads
   * the stored category and leaves the table alone; a miss whose classifier
   * call or INSERT fails leaves the category stale and the table alone; any
   * other miss stores the verdict for the name and makes it the category.
   */
  lemma ClassifyCases(table: map<string, string>, category: Option<string>, name: string, oracle: TransitionOracle)
    ensures var c := Classify(table, category, name, oracle);
      && (!oracle.lookupOk ==> c.table == table && c.category == category)
      && (oracle.lookupOk && name in table ==> c.table == table && c.category == Some(table[name]))
      && (oracle.lookupOk && name !in table && (oracle.verdict.None? || !oracle.storeOk) ==>
            c.table == table && c.category == category)
      && (oracle.lookupOk && name !in table && oracle.verdict.Some? && oracle.storeOk ==>
            c.table == table[name := oracle.verdict.value] && c.category == oracle.verdict)
  {
  }

  /** A stored verdict is what the next change of focus to that name reads back, without asking again. */
  lemma CachedVerdictIsReused(table: map<string, string>, category: Option<string>, name: string, first: TransitionOracle, other: Option<string>, second: TransitionOracle)
    requires first.lookupOk && first.verdict.Some? && first.storeOk && name !in table
    requires second.lookupOk
    ensures var c1 := Classify(table, category, name, first);
      var c2 := Classify(c1.table, other, name, second);
      && c1.consulted && c1.category == first.verdict
      && !c2.consulted && c2.category == first.verdict && c2.table == c1.table
  {
  }

  /* ---------------- The tick as a pure step, and traces of ticks ---------------- */

  /** What the tick loops report: a focused window or host, or the AFK timer firing. */
  datatype Event = Focus(name: string) | Afk

  /** The part of AppMonitor the ticks change, other than the category. */
  datatype Tally = Tally(order: seq<string>, times: map<string, int>, current: Option<string>)

  ghost predicate WellFormed(t: Tally)
  {
    OrderedDict(t.order, t.times)
  }

  /**
   * One tick. A focus report of "" is skipped (the loop's truth test); a report
   * of the app already in focus credits it a second, any other only moves the
   * focus. The AFK tick first sets the focus to "afk_time", so it always credits.
   */
  function Step(t: Tally, e: Event): (r: Tally)
    ensures WellFormed(t) ==> WellFormed(r)
    ensures e.Afk? ==> r.current == Some(AfkAppName)
    ensures e.Focus? && e.name != "" ==> r.current == Some(e.name)
    ensures e.Focus? && e.name == "" ==> r == t
    ensures t.times.Keys <= r.times.Keys
  {
    match e
    case Afk => Tally(Remember(t.order, AfkAppName), Credit(t.times, AfkAppName), Some(AfkAppName))
    case Focus(name) =>
      if name == "" then t
      else if t.current == Some(name) then Tally(Remember(t.order, name), Credit(t.times, name), t.current)
      else Tally(t.order, t.times, Some(name))
  }

  /** A trace of ticks; apps once recorded stay recorded, and app_times stays a dict. */
  function Run(t: Tally, events: seq<Event>): (r: Tally)
    ensures WellFormed(t) ==> WellFormed(r)
    ensures t.times.Keys <= r.times.Keys
    decreases |events|
  {
    if events == [] then t else Run(Step(t, events[0]), events[1..])
  }

  /**
   * The number of ticks in `events` that find their app already in focus:
   * every AFK tick, and every non-empty report naming the app reported (or
   * set by AFK) before it.
   */
  function Repeats(current: Option<string>, events: seq<Event>): nat
    decreases |events|
  {
    if events == [] then 0
    else match events[0]
      case Afk => 1 + Repeats(Some(AfkAppName), events[1..])
      case Focus(name) =>
        if name == "" then Repeats(current, events[1..])
        else (if current == Some(name) then 1 else 0) + Repeats(Some(name), events[1..])
  }

  /** Time is conserved: a trace adds one second per repeated tick, and nothing for a change of focus. */
  lemma {:induction false} RunAddsRepeats(t: Tally, events: seq<Event>)
    requires WellFormed(t)
    ensures WellFormed(Run(t, events))
    ensures Total(Run(t, events).order, Run(t, events).times) == Total(t.order, t.times) + Repeats(t.current, events)
    decreases |events|
  {
    if events != [] {
      var t1 := Step(t, events[0]);
      if events[0].Afk? {
        CreditAddsOneSecond(t.order, t.times, AfkAppName);
      } else if events[0].name != "" && t.current == Some(events[0].name) {
        CreditAddsOneSecond(t.order, t.times, events[0].name);
      }
      RunAddsRepeats(t1, events[1..]);
    }
  }

  /** A first report only moves the focus; the same report a second later credits one second. */
  lemma FirstSecondIsNotCounted(name: string)
    requires name != ""
    ensures Run(Tally([], map[], None), [Focus(name)]) == Tally([], map[], Some(name))
    ensures var t := Run(Tally([], map[], None), [Focus(name), Focus(name)]);
      t.times == map[name := 1] && t.order == [name] && t.current == Some(name)
  {
    var t0 := Tally([], map[], None);
    var t1 := Step(t0, Focus(name));
    assert t1 == Tally([], map[], Some(name));
    assert [Focus(name), Focus(name)][1..] == [Focus(name)];
    assert Run(t0, [Focus(name), Focus(name)]) == Run(t1, [Focus(name)]);
    assert Run(t1, [Focus(name)]) == Step(t1, Focus(name));
  }

  /* ---------------- Host extraction ---------------- */

  /**
   * The name a browser tab is recorded under: the third '/'-field of a URL that
   * holds "//" (the host after "scheme://"), otherwise the first field. No case
   * is changed.
   */
  function HostOf(url: string): (host: string)
    ensures '/' !in host
  {
    var fields := Text.Split(url, '/');
    Text.SplitFieldsFree(url, '/');
    if Text.HasPair(url, '/') then
      Text.PairSplitsInThree(url, '/');
      fields[2]
    else
      fields[0]
  }

  /** The first field of `host + path` is `host` when the path is empty or starts a new field. */
  lemma FirstFieldIsHost(host: string, path: string)
    requires '/' !in host
    requires path == [] || path[0] == '/'
    ensures Text.Split(host + path, '/')[0] == host
  {
    if path == [] {
      assert host + path == host;
      Text.SplitWithout(host, '/');
    } else {
      assert host + path == host + ['/'] + path[1..];
      Text.SplitAfter(host, path[1..], '/');
    }
  }

  /** A URL with a scheme: the host between "//" and the next '/'. */
  lemma HostOfSchemeUrl(scheme: string, host: string, path: string)
    requires '/' !in scheme && '/' !in host
    requires path == [] || path[0] == '/'
    ensures HostOf(scheme + "//" + host + path) == host
  {
    var tail := host + path;
    var url := scheme + ['/'] + (['/'] + tail);
    assert scheme + "//" + host + path == url;
    PairAfterFirstField(scheme, tail);
    ThirdFieldStartsTail(scheme, tail);
    FirstFieldIsHost(host, path);
    assert Text.Split(url, '/')[2] == host;
  }

  lemma PairAfterFirstField(scheme: string, tail: string)
    ensures Text.HasPair(scheme + ['/'] + (['/'] + tail), '/')
  {
    var url := scheme + ['/'] + (['/'] + tail);
    assert url[|scheme|] == '/' && url[|scheme| + 1] == '/';
  }

  lemma ThirdFieldStartsTail(scheme: string, tail: string)
    requires '/' !in scheme
    ensures |Text.Split(scheme + ['/'] + (['/'] + tail), '/')| >= 3
    ensures Text.Split(scheme + ['/'] + (['/'] + tail), '/')[2] == Text.Split(tail, '/')[0]
  {
    var rest := ['/'] + tail;
    assert rest == [] + ['/'] + tail;
    Text.SplitAfter([], tail, '/');
    var second := Text.Split(rest, '/');
    assert second == [[]] + Text.Split(tail, '/');
    Text.SplitAfter(scheme, rest, '/');
    assert Text.Split(scheme + ['/'] + rest, '/') == [scheme] + second;
  }

  /** A URL without "//": everything before the first '/'. */
  lemma HostOfBareUrl(host: string, path: string)
    requires '/' !in host
    requires path == [] || path[0] == '/'
    requires !Text.HasPair(host + path, '/')
    ensures HostOf(host + path) == host
  {
    FirstFieldIsHost(host, path);
  }

  lemma SchemeUrlExample()
    ensures HostOf("https://mail.google.com/inbox") == "mail.google.com"
  {
    HostOfSchemeUrl("https:", "mail.google.com", "/inbox");
    assert "https:" + "//" + "mail.google.com" + "/inbox" == "https://mail.google.com/inbox";
  }

  /** The host keeps its case. */
  lemma HostKeepsCase()
    ensures HostOf("https://Mail.Google.com/") == "Mail.Google.com"
  {
    HostOfSchemeUrl("https:", "Mail.Google.com", "/");
    assert "https:" + "//" + "Mail.Google.com" + "/" == "https://Mail.Google.com/";
  }

  lemma BareUrlExample()
    ensures HostOf("github.com/repo") == "github.com"
  {
    var url := "github.com/repo";
    assert url == "github.com" + "/repo";
    assert !Text.HasPair(url, '/') by {
      forall i | 0 <= i < |url| - 1
        ensures !(url[i] == '/' && url[i + 1] == '/')
      {
        if url[i] == '/' {
          assert i == 10;
        }
      }
    }
    HostOfBareUrl("github.com", "/repo");
  }

  /**
   * A URL without a scheme whose path holds "//" after its second field, such
   * as "a.com/x//y", gives the empty field between the two slashes.
   */
  lemma LaterDoubleSlashGivesEmptyHost(host: string, segment: string, rest: string)
    requires '/' !in host && '/' !in segment
    ensures HostOf(host + "/" + segment + "//" + rest) == ""
  {
    var tail := ['/'] + rest;
    var mid := segment + ['/'] + tail;
    var url := host + ['/'] + mid;
    assert host + "/" + segment + "//" + rest == url;
    HostOfPairAfterSecondField(host, segment, rest);
  }

  lemma HostOfPairAfterSecondField(host: string, segment: string, rest: string)
    requires '/' !in host && '/' !in segment
    ensures HostOf(host + ['/'] + (segment + ['/'] + (['/'] + rest))) == ""
  {
    var url := host + ['/'] + (segment + ['/'] + (['/'] + rest));
    PairAfterSecondField(host, segment, rest);
    ThirdFieldEmpty(host, segment, rest);
    assert Text.HasPair(url, '/');
    assert Text.Split(url, '/')[2] == [];
  }

  lemma PairAfterSecondField(host: string, segment: string, rest: string)
    ensures Text.HasPair(host + ['/'] + (segment + ['/'] + (['/'] + rest)), '/')
  {
    var mid := segment + ['/'] + (['/'] + rest);
    var url := host + ['/'] + mid;
    assert mid[|segment|] == '/' && mid[|segment| + 1] == '/';
    var k := |host| + 1 + |segment|;
    assert url[k] == mid[|segment|] && url[k + 1] == mid[|segment| + 1];
  }

  lemma ThirdFieldEmpty(host: string, segment: string, rest: string)
    requires '/' !in host && '/' !in segment
    ensures |Text.Split(host + ['/'] + (segment + ['/'] + (['/'] + rest)), '/')| >= 3
    ensures Text.Split(host + ['/'] + (segment + ['/'] + (['/'] + rest)), '/')[2] == []
  {
    var tail := ['/'] + rest;
    var mid := segment + ['/'] + tail;
    assert tail == [] + ['/'] + rest;
    Text.SplitAfter([], rest, '/');
    var third := Text.Split(tail, '/');
    assert third[0] == [];
    Text.SplitAfter(segment, tail, '/');
    var second := Text.Split(mid, '/');
    assert second == [segment] + third;
    Text.SplitAfter(host, mid, '/');
    assert Text.Split(host + ['/'] + mid, '/') == [host] + second;
  }

  /* ---------------- get_app_times ---------------- */

  /** The items of app_times, in insertion order. */
  function Items(order: seq<string>, times: map<string, int>): (items: seq<(string, int)>)
    requires forall k <- order :: k in times
    ensures |items| == |order|
    ensures forall i :: 0 <= i < |items| ==> items[i] == (order[i], times[order[i]])
  {
    if order == [] then [] else [(order[0], times[order[0]])] + Items(order[1..], times)
  }

  /** The items of an ordered dict are exactly its entries, each once. */
  lemma ItemsAreEntries(order: seq<string>, times: map<string, int>)
    requires OrderedDict(order, times)
    ensures |Items(order, times)| == |times|
    ensures forall p :: p in Items(order, times) <==> p.0 in times && times[p.0] == p.1
  {
    var items := Items(order, times);
    forall p: (string, int) | p.0 in times && times[p.0] == p.1
      ensures p in items
    {
      var i :| 0 <= i < |order| && order[i] == p.0;
      assert items[i] == p;
    }
    DistinctKeysCount(order, times);
  }

  lemma DistinctKeysCount(order: seq<string>, times: map<string, int>)
    requires OrderedDict(order, times)
    ensures |times| == |order|
  {
    assert times.Keys == set k | k in order;
    DistinctCardinality(order);
  }

  /** A sequence without repeats has as many distinct elements as entries. */
  lemma {:induction false} DistinctCardinality(keys: seq<string>)
    requires forall i, j :: 0 <= i < j < |keys| ==> keys[i] != keys[j]
    ensures |set k | k in keys| == |keys|
    decreases |keys|
  {
    if keys != [] {
      var front := keys[..|keys| - 1];
      var last := keys[|keys| - 1];
      assert last !in front;
      assert (set k | k in keys) == (set k | k in front) + {last};
      DistinctCardinality(front);
    }
  }

  /** Non-increasing in time, the order of sorted(..., key=lambda x: -x[1]). */
  predicate ByTimeDescending(items: seq<(string, int)>)
  {
    forall i, j :: 0 <= i < j < |items| ==> items[i].1 >= items[j].1
  }

  /** Puts `x` before the first entry of `sorted` whose time is not greater than x's. */
  function InsertByTime(x: (string, int), sorted: seq<(string, int)>): (r: seq<(string, int)>)
    requires ByTimeDescending(sorted)
    ensures ByTimeDescending(r)
    ensures multiset(r) == multiset(sorted) + multiset{x}
    ensures |r| == |sorted| + 1 && (r[0] == x || (sorted != [] && r[0] == sorted[0]))
  {
    if sorted == [] || sorted[0].1 <= x.1 then [x] + sorted
    else
      var rest := InsertByTime(x, sorted[1..]);
      assert sorted == [sorted[0]] + sorted[1..];
      assert forall j :: 0 <= j < |rest| ==> rest[j].1 <= rest[0].1;
      [sorted[0]] + rest
  }

  /** A stable sort by descending time. */
  function SortByTime(items: seq<(string, int)>): (r: seq<(string, int)>)
    ensures ByTimeDescending(r)
    ensures multiset(r) == multiset(items)
  {
    if items == [] then []
    else
      assert items == [items[0]] + items[1..];
      InsertByTime(items[0], SortByTime(items[1..]))
  }

  /* ---------------- Saving to usage_data ---------------- */

  /** How one try of the save goes: committed, "database is locked", or another error. */
  datatype Attempt = Committed | Locked | Failed

  /** How save_focus_times ends: committed on the given try, out of retries, or re-raising. */
  datatype SaveOutcome = Saved(onTry: nat) | Exhausted | Raised

  /** The outcome when try k onwards go as `attempt` says and `retries` tries are left. */
  function RetryOutcome(attempt: nat -> Attempt, k: nat, retries: nat): (o: SaveOutcome)
    ensures o.Saved? ==> k <= o.onTry < k + retries && attempt(o.onTry) == Committed
    decreases retries
  {
    if retries == 0 then Exhausted
    else match attempt(k)
      case Committed => Saved(k)
      case Locked => RetryOutcome(attempt, k + 1, retries - 1)
      case Failed => Raised
  }

  /** Meaning of the retry loop: the first try that is not "locked", among the first five, decides. */
  lemma {:induction false} RetryOutcomeIsFirstUnlocked(attempt: nat -> Attempt, k: nat, retries: nat)
    ensures var o := RetryOutcome(attempt, k, retries);
      && (o.Saved? ==> k <= o.onTry < k + retries && attempt(o.onTry) == Committed
                        && forall j :: k <= j < o.onTry ==> attempt(j) == Locked)
      && (o == Exhausted <==> forall j :: k <= j < k + retries ==> attempt(j) == Locked)
      && (o == Raised ==> exists j :: (k <= j < k + retries && attempt(j) == Failed
                                       && forall i :: k <= i < j ==> attempt(i) == Locked))
    decreases retries
  {
    if retries > 0 {
      RetryOutcomeIsFirstUnlocked(attempt, k + 1, retries - 1);
      var o := RetryOutcome(attempt, k, retries);
      if attempt(k) == Locked {
        if o == Raised {
          var j :| k + 1 <= j < k + 1 + retries - 1 && attempt(j) == Failed
                   && forall i :: k + 1 <= i < j ==> attempt(i) == Locked;
          assert forall i :: k <= i < j ==> attempt(i) == Locked;
        }
      } else if attempt(k) == Failed {
        assert k <= k < k + retries && attempt(k) == Failed;
      }
    }
  }

  type Ledger = map<(Dates.Date, string), int>

  /** One row of the INSERT ... ON CONFLICT DO UPDATE SET focus_time = focus_time + excluded.focus_time. */
  function Upsert(ledger: Ledger, day: Dates.Date, app: string, seconds: int): (r: Ledger)
    ensures r.Keys == ledger.Keys + {(day, app)}
    ensures RowTime(r, (day, app)) == RowTime(ledger, (day, app)) + seconds
    ensures forall row <- ledger :: row != (day, app) ==> r[row] == ledger[row]
  {
    ledger[(day, app) := (if (day, app) in ledger then ledger[(day, app)] else 0) + seconds]
  }

  /** The rows for `keys`, in order. */
  function Deposit(ledger: Ledger, day: Dates.Date, keys: seq<string>, times: map<string, int>): (r: Ledger)
    requires forall k <- keys :: k in times
    ensures ledger.Keys <= r.Keys
    ensures forall row <- r :: row in ledger || row.0 == day
    decreases |keys|
  {
    if keys == [] then ledger
    else
      var last := keys[|keys| - 1];
      Upsert(Deposit(ledger, day, keys[..|keys| - 1], times), day, last, times[last])
  }

  /** The seconds a ledger holds for a row: a missing row holds none. */
  function RowTime(ledger: Ledger, row: (Dates.Date, string)): int
  {
    if row in ledger then ledger[row] else 0
  }

  /** A deposit creates exactly the rows of `day` for the keys that are missing. */
  lemma {:induction false} DepositRows(ledger: Ledger, day: Dates.Date, keys: seq<string>, times: map<string, int>)
    requires forall k <- keys :: k in times
    ensures forall row :: row in Deposit(ledger, day, keys, times) <==> row in ledger || (row.0 == day && row.1 in keys)
    decreases |keys|
  {
    if keys != [] {
      var front := keys[..|keys| - 1];
      assert forall k <- front :: k in keys;
      assert forall k <- keys :: k in front || k == keys[|keys| - 1];
      DepositRows(ledger, day, front, times);
    }
  }

  /** A deposit adds each app's seconds to that day's row and leaves every other row alone. */
  lemma {:induction false} DepositAddsTimes(ledger: Ledger, day: Dates.Date, keys: seq<string>, times: map<string, int>)
    requires forall k <- keys :: k in times
    requires forall i, j :: 0 <= i < j < |keys| ==> keys[i] != keys[j]
    ensures forall row :: RowTime(Deposit(ledger, day, keys, times), row)
                          == RowTime(ledger, row) + (if row.0 == day && row.1 in keys then times[row.1] else 0)
    decreases |keys|
  {
    if keys != [] {
      var front := keys[..|keys| - 1];
      var last := keys[|keys| - 1];
      assert forall k <- front :: k in keys;
      assert last !in front;
      DepositAddsTimes(ledger, day, front, times);
      var before := Deposit(ledger, day, front, times);
      forall row
        ensures RowTime(Deposit(ledger, day, keys, times), row)
                == RowTime(ledger, row) + (if row.0 == day && row.1 in keys then times[row.1] else 0)
      {
        assert row.1 in keys <==> row.1 in front || row.1 == last;
        if row == (day, last) {
          assert RowTime(Deposit(ledger, day, keys, times), row) == RowTime(before, row) + times[last];
        } else {
          assert RowTime(Deposit(ledger, day, keys, times), row) == RowTime(before, row);
        }
      }
    }
  }

  /** Saving the same totals twice (on the same day) records them twice. */
  lemma SavingTwiceDoublesTheRows(ledger: Ledger, day: Dates.Date, order: seq<string>, times: map<string, int>, app: string)
    requires OrderedDict(order, times)
    requires app in times
    ensures var twice := Deposit(Deposit(ledger, day, order, times), day, order, times);
      RowTime(twice, (day, app)) == RowTime(ledger, (day, app)) + 2 * times[app]
  {
    DepositAddsTimes(ledger, day, order, times);
    DepositAddsTimes(Deposit(ledger, day, order, times), day, order, times);
  }

  /* ---------------- The classes ---------------- */

  /** The two tables of the SQLite database the monitor writes. */
  class Database {
    var classifyApp: map<string, string>
    var usageData: Ledger

    constructor (classifyApp: map<string, string>, usageData: Ledger)
      ensures this.classifyApp == classifyApp && this.usageData == usageData
    {
      this.classifyApp := classifyApp;
      this.usageData := usageData;
    }
  }

  class AppMonitor {
    /** app_times: its contents and the order its keys were inserted in. */
    var appTimes: map<string, int>
    var order: seq<string>
    var currentApp: Option<string>
    var category: Option<string>
    var afkThreshold: int
    /** How many times the classifier has been asked. */
    ghost var classifierCalls: nat

    ghost predicate Valid()
      reads this
    {
      OrderedDict(order, appTimes)
    }

    ghost function Tallied(): Tally
      reads this
    {
      Tally(order, appTimes, currentApp)
    }

    constructor (afkThreshold: int)
      ensures Valid()
      ensures appTimes == map[] && order == [] && currentApp == None && category == None
      ensures this.afkThreshold == afkThreshold && classifierCalls == 0
    {
      appTimes := map[];
      order := [];
      currentApp := None;
      category := None;
      this.afkThreshold := afkThreshold;
      classifierCalls := 0;
    }

    /**
     * _update_app_time: the app already in focus gets a second; any other
     * becomes the one in focus and has its category looked up.
     */
    method UpdateAppTime(name: string, db: Database, oracle: TransitionOracle)
      requires Valid()
      modifies this`appTimes, this`order, this`currentApp, this`category, this`classifierCalls, db`classifyApp
      ensures Valid()
      ensures currentApp == Some(name)
      ensures old(currentApp) == Some(name) ==>
        && appTimes == Credit(old(appTimes), name) && order == Remember(old(order), name)
        && category == old(category) && db.classifyApp == old(db.classifyApp)
        && classifierCalls == old(classifierCalls)
      ensures old(currentApp) != Some(name) ==>
        var c := Classify(old(db.classifyApp), old(category), name, oracle);
        && appTimes == old(appTimes) && order == old(order)
        && category == c.category && db.classifyApp == c.table
        && classifierCalls == old(classifierCalls) + (if c.consulted then 1 else 0)
    {
      if currentApp != Some(name) {
        currentApp := Some(name);
        if !oracle.lookupOk {
          return;
        }
        if name !in db.classifyApp {
          classifierCalls := classifierCalls + 1;
          if oracle.verdict.None? || !oracle.storeOk {
            return;
          }
          var verdict := oracle.verdict.value;
          db.classifyApp := db.classifyApp[name := verdict];
          category := Some(verdict);
          return;
        }
        category := Some(db.classifyApp[name]);
      } else {
        var seconds := if name in appTimes then appTimes[name] else 0;
        appTimes := appTimes[name := seconds + 1];
        if name !in order {
          order := order + [name];
        }
      }
    }

    /** One pass of _monitor_loop: a report that is None or "" is skipped. */
    method FocusTick(focused: Option<string>, db: Database, oracle: TransitionOracle)
      requires Valid()
      modifies this`appTimes, this`order, this`currentApp, this`category, this`classifierCalls, db`classifyApp
      ensures Valid()
      ensures focused.None? ==> Tallied() == old(Tallied())
      ensures focused.Some? ==> Tallied() == Step(old(Tallied()), Focus(focused.value))
      ensures focused.None? || focused.value == "" || old(currentApp) == focused ==>
        category == old(category) && db.classifyApp == old(db.classifyApp) && classifierCalls == old(classifierCalls)
      ensures focused.Some? && focused.value != "" && old(currentApp) != focused ==>
        var c := Classify(old(db.classifyApp), old(category), focused.value, oracle);
        && category == c.category && db.classifyApp == c.table
        && classifierCalls == old(classifierCalls) + (if c.consulted then 1 else 0)
    {
      if focused.Some? && focused.value != "" {
        UpdateAppTime(focused.value, db, oracle);
      }
    }

    /**
     * One pass of _afk_monitor_loop at time `now`: when the user has been idle
     * for longer than the threshold, "afk_time" becomes the app in focus and is
     * credited a second, without a category lookup.
     */
    method AfkTick(now: int, lastActivity: int, db: Database, oracle: TransitionOracle)
      requires Valid()
      modifies this`appTimes, this`order, this`currentApp, this`category, this`classifierCalls, db`classifyApp
      ensures Valid()
      ensures now - lastActivity > afkThreshold ==> Tallied() == Step(old(Tallied()), Afk)
      ensures now - lastActivity <= afkThreshold ==> Tallied() == old(Tallied())
      ensures category == old(category) && db.classifyApp == old(db.classifyApp) && classifierCalls == old(classifierCalls)
    {
      if now - lastActivity > afkThreshold {
        currentApp := Some(AfkAppName);
        UpdateAppTime(AfkAppName, db, oracle);
      }
    }

    /** get_app_times: every entry of app_times once, longest first. */
    function GetAppTimes(): (r: seq<(string, int)>)
      requires Valid()
      reads this
      ensures ByTimeDescending(r)
      ensures |r| == |appTimes|
      ensures forall p :: p in r <==> p.0 in appTimes && appTimes[p.0] == p.1
    {
      var items := Items(order, appTimes);
      ItemsAreEntries(order, appTimes);
      var sorted := SortByTime(items);
      assert forall p :: p in sorted <==> p in multiset(items);
      sorted
    }

    /**
     * save_focus_times on day `today`: up to five tries; the first to commit
     * adds every app's total to today's rows, a "locked" try is retried, any
     * other error ends the save. app_times is not cleared.
     */
    method SaveFocusTimes(db: Database, today: Dates.Date, attempt: nat -> Attempt) returns (outcome: SaveOutcome)
      requires Valid()
      modifies db`usageData
      ensures outcome == RetryOutcome(attempt, 0, SaveRetries)
      ensures outcome.Saved? ==> db.usageData == Deposit(old(db.usageData), today, order, appTimes)
      ensures !outcome.Saved? ==> db.usageData == old(db.usageData)
    {
      var retries := SaveRetries;
      var k := 0;
      while retries > 0
        invariant 0 <= retries <= SaveRetries && k == SaveRetries - retries
        invariant RetryOutcome(attempt, 0, SaveRetries) == RetryOutcome(attempt, k, retries)
        invariant db.usageData == old(db.usageData)
        decreases retries
      {
        match attempt(k)
        case Committed =>
          var ledger := db.usageData;
          var i := 0;
          while i < |order|
            invariant 0 <= i <= |order|
            invariant ledger == Deposit(db.usageData, today, order[..i], appTimes)
          {
            assert order[..i + 1][..i] == order[..i];
            ledger := Upsert(ledger, today, order[i], appTimes[order[i]]);
            i := i + 1;
          }
          assert order[..|order|] == order;
          db.usageData := ledger;
          return Saved(k);
        case Locked =>
          retries := retries - 1;
          k := k + 1;
        case Failed =>
          return Raised;
      }
      return Exhausted;
    }
  }

  /** With a threshold of 3 seconds and the last activity at 0, the AFK tick does nothing at 3 seconds and credits "afk_time" at 4. */
  method AfkFiresAfterThreshold(oracle: TransitionOracle) returns (atThree: map<string, int>, atFour: map<string, int>)
    ensures atThree == map[]
    ensures atFour == map[AfkAppName := 1]
  {
    var db := new Database(map[], map[]);
    var m := new AppMonitor(3);
    m.AfkTick(3, 0, db, oracle);
    atThree := m.appTimes;
    m.AfkTick(4, 0, db, oracle);
    atFour := m.appTimes;
  }
}

/** The due-day window and the reminder digest of the `notify` command
    (nmba/cli.py), and the notification targets it reads from the config
    table. Day arithmetic runs on a fixed ring 1..31; real month lengths
    play no part. */
module Notify {
  import opened Models
  import Format
  import Table

  const NotifyTargetKey: string := "notify_target"
  const ReminderTitle: string := "Upcoming Bills Reminder"

  /** The day after `d` on the 1..31 ring. */
  function RingNext(d: int): int
  {
    if d == 31 then 1 else d + 1
  }

  /** How many days forward from `today` the day `x` lies on the ring (0..30). */
  function Offset(today: int, x: int): int
  {
    (x - today) % 31
  }

  /** `[(today + i - 1) % 31 + 1 for i in range(lookaheadDays)]`. The operand
      of `%` is never negative here, so Python's floored remainder and
      Dafny's Euclidean one agree. A non-positive lookahead gives no days. */
  function DueDays(today: int, lookaheadDays: int): (r: seq<int>)
    requires 1 <= today <= 31
    ensures |r| == if lookaheadDays > 0 then lookaheadDays else 0
    ensures forall i :: 0 <= i < |r| ==> 1 <= r[i] <= 31
    ensures |r| > 0 ==> r[0] == today
  {
    seq(if lookaheadDays > 0 then lookaheadDays else 0, i => (today + i - 1) % 31 + 1)
  }

  /** `x % 31` is determined by any quotient-remainder split of `x`. */
  lemma ModOf(x: int, q: int, m: int)
    requires x == 31 * q + m && 0 <= m < 31
    ensures x % 31 == m
  {
  }

  /** The `i`-th day of the window lies `i` (mod 31) days after today. */
  lemma DayOffset(today: int, i: nat)
    requires 1 <= today <= 31
    ensures 1 <= (today + i - 1) % 31 + 1 <= 31
    ensures Offset(today, (today + i - 1) % 31 + 1) == i % 31
  {
    var a := today + i - 1;
    var q, m := a / 31, a % 31;
    assert a == 31 * q + m;
    var qi, mi := i / 31, i % 31;
    assert i == 31 * qi + mi;
    assert (m + 1) - today == 31 * (qi - q) + mi;
    ModOf((m + 1) - today, qi - q, mi);
  }

  /** Each day of the window is the ring successor of the one before it. */
  lemma DueDaysSuccessor(today: int, lookaheadDays: int, i: nat)
    requires 1 <= today <= 31
    requires i + 1 < |DueDays(today, lookaheadDays)|
    ensures DueDays(today, lookaheadDays)[i + 1] == RingNext(DueDays(today, lookaheadDays)[i])
  {
    var a := today + i - 1;
    var q, m := a / 31, a % 31;
    assert a == 31 * q + m;
    if m == 30 {
      ModOf(a + 1, q + 1, 0);
    } else {
      ModOf(a + 1, q, m + 1);
    }
  }

  /** The day `o` days forward of today (for `o` below 31) sits at index `o` of the window. */
  lemma DayAtOffset(today: int, x: int)
    requires 1 <= today <= 31 && 1 <= x <= 31
    ensures (today + Offset(today, x) - 1) % 31 + 1 == x
  {
    var o := Offset(today, x);
    var q := (x - today) / 31;
    assert x - today == 31 * q + o;
    ModOf(today + o - 1, -q, x - 1);
  }

  /** A day is in the window exactly when it lies fewer than
      `lookaheadDays` days forward from today on the ring. */
  lemma DueDaysMembership(today: int, lookaheadDays: int, x: int)
    requires 1 <= today <= 31 && 1 <= x <= 31
    ensures x in DueDays(today, lookaheadDays) <==> Offset(today, x) < lookaheadDays
  {
    if x in DueDays(today, lookaheadDays) {
      InWindowNear(today, lookaheadDays, x);
    }
    var o := Offset(today, x);
    if o < lookaheadDays {
      DayAtOffset(today, x);
      assert DueDays(today, lookaheadDays)[o] == x;
    }
  }

  /** A day of the window lies fewer than `lookaheadDays` days forward of today. */
  lemma InWindowNear(today: int, lookaheadDays: int, x: int)
    requires 1 <= today <= 31 && x in DueDays(today, lookaheadDays)
    ensures Offset(today, x) < lookaheadDays
  {
    var r := DueDays(today, lookaheadDays);
    var i :| 0 <= i < |r| && r[i] == x;
    DayOffset(today, i);
    assert i % 31 <= i;
  }

  /** A window of at most 31 days names no day twice. */
  lemma DueDaysDistinct(today: int, lookaheadDays: int)
    requires 1 <= today <= 31 && lookaheadDays <= 31
    ensures forall i, j :: 0 <= i < j < |DueDays(today, lookaheadDays)| ==>
      DueDays(today, lookaheadDays)[i] != DueDays(today, lookaheadDays)[j]
  {
    var r := DueDays(today, lookaheadDays);
    forall i, j | 0 <= i < j < |r| ensures r[i] != r[j] {
      DayOffset(today, i);
      DayOffset(today, j);
    }
  }

  /** A window longer than 31 days starts over: day 32 is today again. */
  lemma DueDaysRepeat(today: int, lookaheadDays: int)
    requires 1 <= today <= 31 && lookaheadDays > 31
    ensures DueDays(today, lookaheadDays)[31] == today
  {
    ModOf(today + 30, 1, today - 1);
  }

  /** A window of 31 or more days covers every day of the ring. */
  lemma DueDaysCoverAll(today: int, lookaheadDays: int, x: int)
    requires 1 <= today <= 31 && lookaheadDays >= 31 && 1 <= x <= 31
    ensures x in DueDays(today, lookaheadDays)
  {
    DueDaysMembership(today, lookaheadDays, x);
  }

  /** The query `paid == False and due_day in due_days`, in table order. */
  function DueSoon(t: seq<Bill>, days: seq<int>): (r: seq<Bill>)
    ensures |r| <= |t|
    ensures forall b :: b in r <==> b in t && !b.paid && b.dueDay in days
  {
    if t == [] then []
    else (if !t[0].paid && t[0].dueDay in days then [t[0]] else []) + DueSoon(t[1..], days)
  }

  /** The matches come out in table order: ascending ids. */
  lemma {:induction false} DueSoonOrdered(t: seq<Bill>, days: seq<int>)
    requires Table.Ordered(t)
    ensures Table.Ordered(DueSoon(t, days))
  {
    if t != [] {
      var tail := t[1..];
      assert Table.Ordered(tail);
      DueSoonOrdered(tail, days);
      var rest := DueSoon(tail, days);
      forall k | 0 <= k < |rest| ensures t[0].id < rest[k].id {
        assert rest[k] in tail;
        var j :| 0 <= j < |tail| && tail[j] == rest[k];
        assert t[j + 1] == rest[k];
      }
      var r := DueSoon(t, days);
      if !t[0].paid && t[0].dueDay in days {
        assert r == [t[0]] + rest;
        assert forall k :: 1 <= k < |r| ==> r[k] == rest[k - 1];
      } else {
        assert r == rest;
      }
    }
  }

  /** A paid bill is never selected, whatever its due day and the window. */
  lemma PaidNeverDue(t: seq<Bill>, today: int, lookaheadDays: int, b: Bill)
    requires 1 <= today <= 31 && b.paid
    ensures b !in DueSoon(t, DueDays(today, lookaheadDays))
  {
  }

  /** With a non-positive lookahead nothing is selected. */
  lemma NoWindowNoBills(t: seq<Bill>, today: int, lookaheadDays: int)
    requires 1 <= today <= 31 && lookaheadDays <= 0
    ensures DueSoon(t, DueDays(today, lookaheadDays)) == []
  {
  }

  /** An unpaid bill is selected exactly when its due day lies within
      `lookaheadDays` days forward of today on the ring. */
  lemma DueSoonWindow(t: seq<Bill>, today: int, lookaheadDays: int, b: Bill)
    requires 1 <= today <= 31 && b in t && !b.paid && 1 <= b.dueDay <= 31
    ensures b in DueSoon(t, DueDays(today, lookaheadDays)) <==> Offset(today, b.dueDay) < lookaheadDays
  {
    DueDaysMembership(today, lookaheadDays, b.dueDay);
  }

  /** Day 30 with a three-day window wraps past 31 to 1. */
  lemma WrapExample()
    ensures DueDays(30, 3) == [30, 31, 1]
  {
    assert (30 + 2 - 1) % 31 + 1 == 1;
  }

  /** A bill due on day 5 is selected on day 4 with a two-day window, unless it is paid. */
  lemma RentExample(rent: Bill)
    requires rent.dueDay == 5
    ensures DueSoon([rent], DueDays(4, 2)) == if rent.paid then [] else [rent]
  {
    assert DueDays(4, 2) == [4, 5];
    assert [rent][1..] == [];
  }

  /** One digest line: `f"{name} to {recipient} due on day {due_day} for ${amount:.2f}"`.
      It names the bill and its recipient, then the due day, then the amount
      (whose text `Format.FormatCentsValue` reads back), and holds no line
      break unless the name or the recipient does. */
  function DigestLine(b: Bill): (line: string)
    ensures var head := b.name + " to " + b.recipient + " due on day ";
      var tail := " for $" + Format.FormatCents(b.amount);
      && |head| + |tail| <= |line|
      && line[..|head|] == head
      && line[|head|..|line| - |tail|] == Format.IntToString(b.dueDay)
      && line[|line| - |tail|..] == tail
    ensures |b.name| <= |line| && line[..|b.name|] == b.name
    ensures '\n' !in b.name && '\n' !in b.recipient ==> '\n' !in line
  {
    var day := Format.IntToString(b.dueDay);
    var amount := Format.FormatCents(b.amount);
    assert '\n' !in day && '\n' !in amount;
    b.name + " to " + b.recipient + " due on day " + day + " for $" + amount
  }

  /** The digest: one line per selected bill, in selection order. */
  function Digest(bills: seq<Bill>): (lines: seq<string>)
    ensures |lines| == |bills|
    ensures forall i :: 0 <= i < |bills| ==> |bills[i].name| <= |lines[i]| && lines[i][..|bills[i].name|] == bills[i].name
  {
    seq(|bills|, i requires 0 <= i < |bills| => DigestLine(bills[i]))
  }

  /** `"\n".join(lines)`: starts with the first line and ends with the last. */
  function JoinLines(lines: seq<string>): (text: string)
    ensures lines != [] ==> |lines[0]| <= |text| && text[..|lines[0]|] == lines[0]
    ensures lines != [] ==>
      |lines[|lines| - 1]| <= |text| && text[|text| - |lines[|lines| - 1]|..] == lines[|lines| - 1]
  {
    if lines == [] then ""
    else if |lines| == 1 then lines[0]
    else lines[0] + "\n" + JoinLines(lines[1..])
  }

  /** `s.split("\n")`: the pieces between line breaks, in order. */
  function SplitLines(s: string): (pieces: seq<string>)
    ensures |pieces| >= 1
  {
    if s == [] then [""]
    else if s[0] == '\n' then [""] + SplitLines(s[1..])
    else
      var rest := SplitLines(s[1..]);
      [[s[0]] + rest[0]] + rest[1..]
  }

  /** A text without line breaks splits into itself alone. */
  lemma {:induction false} SplitSingle(a: string)
    requires '\n' !in a
    ensures SplitLines(a) == [a]
  {
    if a != [] {
      assert '\n' !in a[1..];
      SplitSingle(a[1..]);
      assert [a[0]] + a[1..] == a;
    }
  }

  /** A first line without a line break splits off as the first piece. */
  lemma {:induction false} SplitStep(a: string, t: string)
    requires '\n' !in a
    ensures SplitLines(a + "\n" + t) == [a] + SplitLines(t)
  {
    var s := a + "\n" + t;
    if a == [] {
      assert s == "\n" + t && s[1..] == t;
    } else {
      assert s[0] == a[0] && s[1..] == a[1..] + "\n" + t;
      assert '\n' !in a[1..];
      SplitStep(a[1..], t);
      assert [a[0]] + a[1..] == a;
    }
  }

  /** Splitting the joined text at its line breaks gives back the lines,
      when no line holds a line break of its own. */
  lemma {:induction false} SplitJoinRoundTrip(lines: seq<string>)
    requires lines != [] && forall i :: 0 <= i < |lines| ==> '\n' !in lines[i]
    ensures SplitLines(JoinLines(lines)) == lines
  {
    if |lines| == 1 {
      SplitSingle(lines[0]);
    } else {
      SplitStep(lines[0], JoinLines(lines[1..]));
      SplitJoinRoundTrip(lines[1..]);
      assert [lines[0]] + lines[1..] == lines;
    }
  }

  /** The number of line breaks in a text. */
  function LineBreaks(s: string): nat
  {
    if s == [] then 0 else LineBreaks(s[..|s| - 1]) + if s[|s| - 1] == '\n' then 1 else 0
  }

  lemma {:induction false} LineBreaksAppend(a: string, b: string)
    ensures LineBreaks(a + b) == LineBreaks(a) + LineBreaks(b)
  {
    if b != [] {
      assert (a + b)[..|a + b| - 1] == a + b[..|b| - 1];
      assert (a + b)[|a + b| - 1] == b[|b| - 1];
      LineBreaksAppend(a, b[..|b| - 1]);
    } else {
      assert a + b == a;
    }
  }

  lemma {:induction false} NoLineBreaks(s: string)
    requires '\n' !in s
    ensures LineBreaks(s) == 0
  {
    if s != [] {
      NoLineBreaks(s[..|s| - 1]);
    }
  }

  /** Joining `k` lines that hold no line break gives a text with `k - 1` line breaks. */
  lemma {:induction false} JoinLinesBreaks(lines: seq<string>)
    requires lines != [] && forall i :: 0 <= i < |lines| ==> '\n' !in lines[i]
    ensures LineBreaks(JoinLines(lines)) == |lines| - 1
  {
    NoLineBreaks(lines[0]);
    if |lines| > 1 {
      JoinLinesBreaks(lines[1..]);
      LineBreaksAppend(lines[0], "\n");
      LineBreaksAppend(lines[0] + "\n", JoinLines(lines[1..]));
      assert LineBreaks("\n") == 1 by { assert "\n"[..0] == []; }
    }
  }

  /** The reminder body has one line per selected bill, in selection order:
      split at its line breaks it gives back the digest lines, and `k` bills
      give `k - 1` line breaks, as long as names and recipients hold none. */
  lemma DigestOneLinePerBill(bills: seq<Bill>)
    requires bills != []
    requires forall b :: b in bills ==> '\n' !in b.name && '\n' !in b.recipient
    ensures SplitLines(JoinLines(Digest(bills))) == Digest(bills)
    ensures LineBreaks(JoinLines(Digest(bills))) == |bills| - 1
  {
    var lines := Digest(bills);
    forall i | 0 <= i < |lines| ensures '\n' !in lines[i] {
      assert bills[i] in bills;
    }
    JoinLinesBreaks(lines);
    SplitJoinRoundTrip(lines);
  }

  /** The values stored under `notify_target`, in insertion order. */
  function NotifyTargets(config: seq<ConfigEntry>): (r: seq<string>)
    ensures |r| <= |config|
    ensures forall v :: v in r <==> ConfigEntry(NotifyTargetKey, v) in config
  {
    if config == [] then []
    else (if config[0].key == NotifyTargetKey then [config[0].value] else []) + NotifyTargets(config[1..])
  }

  /** Adding a target appends it to the target list, after the earlier ones. */
  lemma {:induction false} NotifyTargetsAppend(config: seq<ConfigEntry>, url: string)
    ensures NotifyTargets(config + [ConfigEntry(NotifyTargetKey, url)]) == NotifyTargets(config) + [url]
  {
    var e := ConfigEntry(NotifyTargetKey, url);
    if config == [] {
      assert [e][1..] == [];
    } else {
      assert (config + [e])[1..] == config[1..] + [e];
      NotifyTargetsAppend(config[1..], url);
    }
  }
}

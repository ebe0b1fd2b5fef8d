/**
  Stops and the CSS string built from them (js/GradientCreator.js:17-23,
  177-192, 236-242): `getStops` orders the stops by position, `rerender`
  writes them into a `linear-gradient(180deg, ...)` background.
*/
module Gradient {

  /** A gradient stop as `getStops` reports it: a position (0 at the top, 1 at the bottom) and a colour. */
  datatype Stop<C> = Stop(pos: real, color: C)

  /** How values become text: the colour's CSS string and JavaScript's number-to-string conversion. */
  datatype Format<-C> = Format(css: C -> string, number: real -> string)

  predicate SortedByPos<C>(s: seq<Stop<C>>)
  {
    forall i, j :: 0 <= i < j < |s| ==> s[i].pos <= s[j].pos
  }

  /** Inserts `x` before the first stop whose position is at least `x.pos`. */
  function InsertByPos<C>(s: seq<Stop<C>>, x: Stop<C>): (r: seq<Stop<C>>)
    requires SortedByPos(s)
    ensures |r| == |s| + 1
    ensures r[0] == x || (s != [] && r[0] == s[0])
    ensures SortedByPos(r)
    ensures multiset(r) == multiset(s) + multiset{x}
  {
    if s == [] || x.pos <= s[0].pos then [x] + s
    else
      var rest := InsertByPos(s[1..], x);
      assert s == [s[0]] + s[1..];
      SortedCons(s[0], rest);
      [s[0]] + rest
  }

  lemma SortedCons<C>(a: Stop<C>, rest: seq<Stop<C>>)
    requires SortedByPos(rest)
    requires rest != [] ==> a.pos <= rest[0].pos
    ensures SortedByPos([a] + rest)
  {
    forall i, j | 0 <= i < j < |[a] + rest| ensures ([a] + rest)[i].pos <= ([a] + rest)[j].pos {
      if i == 0 {
        assert rest[0].pos <= rest[j - 1].pos || j == 1;
      }
    }
  }

  /**
    The order `stops.sort((a, b) => a.pos - b.pos)` leaves the stops in: by
    non-decreasing position, stops with equal positions in their original order
    (the sort is stable).
  */
  function SortByPos<C>(s: seq<Stop<C>>): (r: seq<Stop<C>>)
    ensures SortedByPos(r)
    ensures multiset(r) == multiset(s)
    ensures |r| == |s|
  {
    if s == [] then []
    else
      assert s == [s[0]] + s[1..];
      InsertByPos(SortByPos(s[1..]), s[0])
  }

  /** The stops at position `p`, in order. */
  function AtPos<C>(s: seq<Stop<C>>, p: real): seq<Stop<C>>
  {
    if s == [] then [] else (if s[0].pos == p then [s[0]] else []) + AtPos(s[1..], p)
  }

  lemma AtPosCons<C>(x: Stop<C>, s: seq<Stop<C>>, p: real)
    ensures AtPos([x] + s, p) == (if x.pos == p then [x] else []) + AtPos(s, p)
  {
    assert ([x] + s)[1..] == s;
  }

  lemma {:induction false} InsertByPosAtPos<C>(s: seq<Stop<C>>, x: Stop<C>, p: real)
    requires SortedByPos(s)
    ensures AtPos(InsertByPos(s, x), p) == (if x.pos == p then [x] else []) + AtPos(s, p)
  {
    if s == [] || x.pos <= s[0].pos {
      assert InsertByPos(s, x) == [x] + s;
      AtPosCons(x, s, p);
    } else {
      var rest := InsertByPos(s[1..], x);
      assert InsertByPos(s, x) == [s[0]] + rest;
      InsertByPosAtPos(s[1..], x, p);
      AtPosCons(s[0], rest, p);
      AtPosCons(s[0], s[1..], p);
      assert [s[0]] + s[1..] == s;
      if s[0].pos == p {
        assert AtPos(InsertByPos(s, x), p) == [s[0]] + AtPos(s[1..], p);
      } else {
        assert AtPos(InsertByPos(s, x), p) == (if x.pos == p then [x] else []) + AtPos(s[1..], p);
      }
    }
  }

  /** Stability: for every position, the stops sitting there keep their relative order. */
  lemma {:induction false} SortByPosStable<C>(s: seq<Stop<C>>, p: real)
    ensures AtPos(SortByPos(s), p) == AtPos(s, p)
  {
    if s != [] {
      SortByPosStable(s[1..], p);
      InsertByPosAtPos(SortByPos(s[1..]), s[0], p);
    }
  }

  /** Re-sorting `getStops`' output changes nothing: a list already ordered by position is its own sort. */
  lemma {:induction false} SortByPosOfSorted<C>(s: seq<Stop<C>>)
    requires SortedByPos(s)
    ensures SortByPos(s) == s
  {
    if s != [] {
      SortByPosOfSorted(s[1..]);
      assert s == [s[0]] + s[1..];
    }
  }

  // ---------------------------------------------------------------------
  // Rendering

  const GRADIENT_PREFIX := "linear-gradient(180deg, "

  /** `stop.color + " " + stop.pos * 100 + "%"`. */
  function Entry<C>(fmt: Format<C>, s: Stop<C>): (r: string)
    ensures |r| == |fmt.css(s.color)| + |fmt.number(s.pos * 100.0)| + 2
    ensures r[..|fmt.css(s.color)|] == fmt.css(s.color) && r[|fmt.css(s.color)|] == ' '
    ensures r[|r| - 1] == '%'
    ensures r[|fmt.css(s.color)| + 1..] == fmt.number(s.pos * 100.0) + "%"
  {
    fmt.css(s.color) + " " + fmt.number(s.pos * 100.0) + "%"
  }

  /** `stops.map(...)` with `Entry`. */
  function Entries<C>(fmt: Format<C>, stops: seq<Stop<C>>): (r: seq<string>)
    ensures |r| == |stops|
    ensures forall i :: 0 <= i < |stops| ==> r[i] == Entry(fmt, stops[i])
  {
    seq(|stops|, i requires 0 <= i < |stops| => Entry(fmt, stops[i]))
  }

  /** `Array.prototype.join(sep)`. */
  function Join(parts: seq<string>, sep: string): (r: string)
    ensures parts == [] ==> r == ""
    ensures |parts| == 1 ==> r == parts[0]
    ensures |parts| > 0 ==> |r| >= |parts[0]| && r[..|parts[0]|] == parts[0]
  {
    if parts == [] then ""
    else if |parts| == 1 then parts[0]
    else parts[0] + sep + Join(parts[1..], sep)
  }

  /** Appending one more part appends the separator and that part: join as a left-to-right loop would build it. */
  lemma {:induction false} JoinSnoc(parts: seq<string>, last: string, sep: string)
    requires parts != []
    ensures Join(parts + [last], sep) == Join(parts, sep) + sep + last
  {
    if |parts| == 1 {
      assert (parts + [last])[1..] == [last];
    } else {
      assert (parts + [last])[1..] == parts[1..] + [last];
      JoinSnoc(parts[1..], last, sep);
    }
  }

  /** The background `rerender` writes for the stops `stops`, in whatever order they are stored. */
  function RenderGradient<C>(fmt: Format<C>, stops: seq<Stop<C>>): (r: string)
    ensures |r| > |GRADIENT_PREFIX| && r[..|GRADIENT_PREFIX|] == GRADIENT_PREFIX
    ensures r[|r| - 1] == ')'
  {
    GRADIENT_PREFIX + Join(Entries(fmt, SortByPos(stops)), ",") + ")"
  }

  /** With no stops the gradient list is empty. */
  lemma RenderEmpty<C>(fmt: Format<C>)
    ensures RenderGradient(fmt, []) == "linear-gradient(180deg, )"
  {
  }

  /**
    Rendering sorted stops lists their entries in order, comma-separated, without
    a trailing comma; one more stop at the end adds one more entry.
  */
  lemma RenderAppend<C>(fmt: Format<C>, stops: seq<Stop<C>>, x: Stop<C>)
    requires stops != [] && SortedByPos(stops + [x])
    ensures RenderGradient(fmt, stops + [x])
         == GRADIENT_PREFIX + Join(Entries(fmt, stops), ",") + "," + Entry(fmt, x) + ")"
  {
    SortByPosOfSorted(stops + [x]);
    EntriesAppend(fmt, stops, x);
    JoinSnoc(Entries(fmt, stops), Entry(fmt, x), ",");
    RegroupLast(GRADIENT_PREFIX, Join(Entries(fmt, stops), ","), Entry(fmt, x));
  }

  lemma RegroupLast(p: string, j: string, e: string)
    ensures p + (j + "," + e) + ")" == p + j + "," + e + ")"
  {
  }

  lemma EntriesAppend<C>(fmt: Format<C>, stops: seq<Stop<C>>, x: Stop<C>)
    ensures Entries(fmt, stops + [x]) == Entries(fmt, stops) + [Entry(fmt, x)]
  {
  }

  /** The three-stop example: black, red and white at 0, 0.5 and 1, stored out of order. */
  lemma RenderThreeStops<C>(fmt: Format<C>, black: C, red: C, white: C)
    requires fmt.css(black) == "rgb(0,0,0)" && fmt.css(red) == "rgb(255,0,0)" && fmt.css(white) == "rgb(255,255,255)"
    requires fmt.number(0.0) == "0" && fmt.number(50.0) == "50" && fmt.number(100.0) == "100"
    ensures RenderGradient(fmt, [Stop(1.0, white), Stop(0.0, black), Stop(0.5, red)])
         == "linear-gradient(180deg, rgb(0,0,0) 0%,rgb(255,0,0) 50%,rgb(255,255,255) 100%)"
  {
    var sorted := [Stop(0.0, black), Stop(0.5, red), Stop(1.0, white)];
    SortThree(black, red, white);
    ThreeEntries(fmt, black, red, white);
    assert Entries(fmt, sorted) == [Entry(fmt, sorted[0]), Entry(fmt, sorted[1]), Entry(fmt, sorted[2])];
    ThreeEntriesText(Entry(fmt, sorted[0]), Entry(fmt, sorted[1]), Entry(fmt, sorted[2]));
  }

  lemma ThreeEntries<C>(fmt: Format<C>, black: C, red: C, white: C)
    requires fmt.css(black) == "rgb(0,0,0)" && fmt.css(red) == "rgb(255,0,0)" && fmt.css(white) == "rgb(255,255,255)"
    requires fmt.number(0.0) == "0" && fmt.number(50.0) == "50" && fmt.number(100.0) == "100"
    ensures Entry(fmt, Stop(0.0, black)) == "rgb(0,0,0) 0%"
    ensures Entry(fmt, Stop(0.5, red)) == "rgb(255,0,0) 50%"
    ensures Entry(fmt, Stop(1.0, white)) == "rgb(255,255,255) 100%"
  {
    assert "rgb(0,0,0)" + " " + "0" + "%" == "rgb(0,0,0) 0%";
    assert 0.5 * 100.0 == 50.0;
    assert "rgb(255,0,0)" + " " + "50" + "%" == "rgb(255,0,0) 50%";
    assert "rgb(255,255,255)" + " " + "100" + "%" == "rgb(255,255,255) 100%";
  }

  lemma SortThree<C>(black: C, red: C, white: C)
    ensures SortByPos([Stop(1.0, white), Stop(0.0, black), Stop(0.5, red)])
         == [Stop(0.0, black), Stop(0.5, red), Stop(1.0, white)]
  {
    var s := [Stop(1.0, white), Stop(0.0, black), Stop(0.5, red)];
    assert s[1..][1..][1..] == [];
    assert SortByPos(s[1..][1..]) == [Stop(0.5, red)];
    assert SortByPos(s[1..]) == [Stop(0.0, black), Stop(0.5, red)];
    assert InsertByPos([Stop(0.5, red)], Stop(1.0, white)) == [Stop(0.5, red), Stop(1.0, white)];
  }

  lemma ThreeEntriesText(e0: string, e1: string, e2: string)
    requires e0 == "rgb(0,0,0) 0%" && e1 == "rgb(255,0,0) 50%" && e2 == "rgb(255,255,255) 100%"
    ensures GRADIENT_PREFIX + Join([e0, e1, e2], ",") + ")"
         == "linear-gradient(180deg, rgb(0,0,0) 0%,rgb(255,0,0) 50%,rgb(255,255,255) 100%)"
  {
    assert Join([e0, e1, e2], ",") == e0 + "," + (e1 + "," + e2) by {
      assert [e0, e1, e2][1..] == [e1, e2];
      assert [e1, e2][1..] == [e2];
    }
    FirstEntryText();
    SecondEntryText();
    ThirdEntryText();
  }

  lemma FirstEntryText()
    ensures GRADIENT_PREFIX + "rgb(0,0,0) 0%" + "," == "linear-gradient(180deg, rgb(0,0,0) 0%,"
  {
  }

  lemma SecondEntryText()
    ensures "linear-gradient(180deg, rgb(0,0,0) 0%," + "rgb(255,0,0) 50%" + ","
         == "linear-gradient(180deg, rgb(0,0,0) 0%,rgb(255,0,0) 50%,"
  {
  }

  lemma ThirdEntryText()
    ensures "linear-gradient(180deg, rgb(0,0,0) 0%,rgb(255,0,0) 50%," + "rgb(255,255,255) 100%" + ")"
         == "linear-gradient(180deg, rgb(0,0,0) 0%,rgb(255,0,0) 50%,rgb(255,255,255) 100%)"
  {
  }
}

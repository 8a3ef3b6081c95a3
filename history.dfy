/** The re-projection step of the history endpoint (`HistoryHandler`): the
    upstream answer, decoded as a JSON array of records
    `[ts_ms, open, high, low, close, volume]`, becomes six parallel columns
    `t, o, h, l, c, v` with the timestamps in seconds. */
module History {
  import opened GoArith

  /** A decoded JSON value as `json.Unmarshal` produces it for
      `interface{}`; a number is a float64, here an exact real. */
  datatype Json =
    | JNull
    | JBool(b: bool)
    | JNumber(x: real)
    | JString(str: string)
    | JArray(items: seq<Json>)
    | JObject(fields: map<string, Json>)

  /** A record the loop converts without a failed type assertion: a number
      first (whose integer part fits an int64), then five strings; further
      fields are ignored. */
  predicate WellFormed(k: seq<Json>) {
    |k| >= 6 && k[0].JNumber? && InInt64(TruncReal(k[0].x)) &&
    k[1].JString? && k[2].JString? && k[3].JString? && k[4].JString? && k[5].JString?
  }

  predicate AllWellFormed(jsp: seq<seq<Json>>) {
    forall i :: 0 <= i < |jsp| ==> WellFormed(jsp[i])
  }

  /** `int64(k[0].(float64)) / 1000`: the record's millisecond timestamp
      in whole seconds. */
  function Seconds(k: seq<Json>): (t: Int64)
    requires WellFormed(k)
    ensures t == TruncReal(k[0].x / 1000.0)
  {
    MillisToSeconds(k[0].x);
    Quot(TruncReal(k[0].x), 1000)
  }

  /** One output bar; `parse` stands for `strconv.ParseFloat` with its error
      dropped, whose value type `F` the model leaves opaque. */
  datatype Bar<F> = Bar(time: Int64, open: F, high: F, low: F, close: F, volume: F)

  function ToBar<F>(k: seq<Json>, parse: string -> F): Bar<F>
    requires WellFormed(k)
  {
    Bar(Seconds(k), parse(k[1].str), parse(k[2].str), parse(k[3].str), parse(k[4].str), parse(k[5].str))
  }

  /** The six columns of the response, in the struct's order `t, c, o, h, l, v`. */
  datatype Columns<F> = Columns(t: seq<Int64>, c: seq<F>, o: seq<F>, h: seq<F>, l: seq<F>, v: seq<F>)

  /** All six columns hold `n` entries. */
  predicate Rectangular<F>(cols: Columns<F>, n: nat) {
    |cols.t| == n && |cols.c| == n && |cols.o| == n && |cols.h| == n && |cols.l| == n && |cols.v| == n
  }

  /** Entry `i` of the six columns, read back as a bar. */
  function Row<F>(cols: Columns<F>, i: nat): Bar<F>
    requires Rectangular(cols, |cols.t|) && i < |cols.t|
  {
    Bar(cols.t[i], cols.o[i], cols.h[i], cols.l[i], cols.c[i], cols.v[i])
  }

  function Push<F>(cols: Columns<F>, b: Bar<F>): Columns<F> {
    Columns(cols.t + [b.time], cols.c + [b.close], cols.o + [b.open],
            cols.h + [b.high], cols.l + [b.low], cols.v + [b.volume])
  }

  function Concat<F>(a: Columns<F>, b: Columns<F>): Columns<F> {
    Columns(a.t + b.t, a.c + b.c, a.o + b.o, a.h + b.h, a.l + b.l, a.v + b.v)
  }

  /** The columns after the loop has handled every record of `jsp`, in
      order: each step appends the bar of the next record. */
  function Reprojected<F>(jsp: seq<seq<Json>>, parse: string -> F): (cols: Columns<F>)
    requires AllWellFormed(jsp)
    ensures Rectangular(cols, |jsp|)
    decreases |jsp|
  {
    if jsp == [] then Columns([], [], [], [], [], [])
    else Push(Reprojected(jsp[..|jsp| - 1], parse), ToBar(jsp[|jsp| - 1], parse))
  }

  /** Index `i` of every column comes from record `i` of the upstream
      answer: its timestamp in seconds and its fields 1 to 5. */
  lemma {:induction false} ReprojectedAt<F>(jsp: seq<seq<Json>>, parse: string -> F, i: nat)
    requires AllWellFormed(jsp) && i < |jsp|
    ensures Rectangular(Reprojected(jsp, parse), |jsp|)
    ensures Row(Reprojected(jsp, parse), i) == ToBar(jsp[i], parse)
  {
    var init := jsp[..|jsp| - 1];
    assert AllWellFormed(init);
    if i < |jsp| - 1 {
      ReprojectedAt(init, parse, i);
      assert jsp[i] == init[i];
    }
  }

  /** Re-projection works record by record: the columns of two upstream
      answers one after the other are the two column sets concatenated. */
  lemma {:induction false} ReprojectedAppend<F>(a: seq<seq<Json>>, b: seq<seq<Json>>, parse: string -> F)
    requires AllWellFormed(a) && AllWellFormed(b)
    ensures AllWellFormed(a + b)
    ensures Reprojected(a + b, parse) == Concat(Reprojected(a, parse), Reprojected(b, parse))
    decreases |b|
  {
    AllWellFormedConcat(a, b);
    if b == [] {
      assert a + b == a;
      ConcatEmpty(Reprojected(a, parse));
    } else {
      var b' := b[..|b| - 1];
      var last := ToBar(b[|b| - 1], parse);
      assert AllWellFormed(b');
      AllWellFormedConcat(a, b');
      assert (a + b)[..|a + b| - 1] == a + b';
      assert (a + b)[|a + b| - 1] == b[|b| - 1];
      calc {
        Reprojected(a + b, parse);
        Push(Reprojected(a + b', parse), last);
        { ReprojectedAppend(a, b', parse); }
        Push(Concat(Reprojected(a, parse), Reprojected(b', parse)), last);
        { PushConcat(Reprojected(a, parse), Reprojected(b', parse), last); }
        Concat(Reprojected(a, parse), Push(Reprojected(b', parse), last));
        Concat(Reprojected(a, parse), Reprojected(b, parse));
      }
    }
  }

  lemma ConcatEmpty<F>(x: Columns<F>)
    ensures Concat(x, Columns([], [], [], [], [], [])) == x
  {
    assert x.t + [] == x.t && x.c + [] == x.c && x.o + [] == x.o;
    assert x.h + [] == x.h && x.l + [] == x.l && x.v + [] == x.v;
  }

  lemma PushConcat<F>(x: Columns<F>, y: Columns<F>, bar: Bar<F>)
    ensures Push(Concat(x, y), bar) == Concat(x, Push(y, bar))
  {
    assert (x.t + y.t) + [bar.time] == x.t + (y.t + [bar.time]);
    assert (x.c + y.c) + [bar.close] == x.c + (y.c + [bar.close]);
    assert (x.o + y.o) + [bar.open] == x.o + (y.o + [bar.open]);
    assert (x.h + y.h) + [bar.high] == x.h + (y.h + [bar.high]);
    assert (x.l + y.l) + [bar.low] == x.l + (y.l + [bar.low]);
    assert (x.v + y.v) + [bar.volume] == x.v + (y.v + [bar.volume]);
  }

  lemma AllWellFormedConcat(a: seq<seq<Json>>, b: seq<seq<Json>>)
    requires AllWellFormed(a) && AllWellFormed(b)
    ensures AllWellFormed(a + b)
  {
    forall i | 0 <= i < |a + b| ensures WellFormed((a + b)[i]) {
      if i >= |a| {
        assert (a + b)[i] == b[i - |a|];
      }
    }
  }

  /** The loop of `HistoryHandler`: six arrays of the answer's length are
      allocated and filled at index `i` from record `i`. */
  method Reproject<F(0)>(jsp: seq<seq<Json>>, parse: string -> F)
    returns (t: array<Int64>, cl: array<F>, o: array<F>, h: array<F>, l: array<F>, v: array<F>)
    requires AllWellFormed(jsp)
    ensures fresh(t) && fresh(cl) && fresh(o) && fresh(h) && fresh(l) && fresh(v)
    ensures t.Length == cl.Length == o.Length == h.Length == l.Length == v.Length == |jsp|
    ensures forall i :: 0 <= i < |jsp| ==> Bar(t[i], o[i], h[i], l[i], cl[i], v[i]) == ToBar(jsp[i], parse)
    ensures Columns(t[..], cl[..], o[..], h[..], l[..], v[..]) == Reprojected(jsp, parse)
  {
    var n := |jsp|;
    t := new Int64[n];
    cl := new F[n];
    o := new F[n];
    h := new F[n];
    l := new F[n];
    v := new F[n];
    var i := 0;
    while i < n
      invariant 0 <= i <= n
      invariant forall j :: 0 <= j < i ==> Bar(t[j], o[j], h[j], l[j], cl[j], v[j]) == ToBar(jsp[j], parse)
    {
      var k := jsp[i];
      // the six conversions of the Go loop body, then the six stores
      var bar := ToBar(k, parse);
      t[i] := bar.time;
      o[i] := bar.open;
      h[i] := bar.high;
      l[i] := bar.low;
      cl[i] := bar.close;
      v[i] := bar.volume;
      i := i + 1;
    }
    ghost var want := Reprojected(jsp, parse);
    forall j | 0 <= j < n
      ensures t[j] == want.t[j] && cl[j] == want.c[j] && o[j] == want.o[j]
      ensures h[j] == want.h[j] && l[j] == want.l[j] && v[j] == want.v[j]
    {
      ReprojectedAt(jsp, parse, j);
    }
    assert t[..] == want.t;
    assert cl[..] == want.c;
    assert o[..] == want.o;
    assert h[..] == want.h;
    assert l[..] == want.l;
    assert v[..] == want.v;
  }
}

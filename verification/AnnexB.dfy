/** Splitting an H.264 byte stream at its start codes (ITU-T H.264, Annex B.1). */
module AnnexB {
  import opened Bytes

  const START_CODE_3: seq<Byte> := [0, 0, 1]
  const START_CODE_4: seq<Byte> := [0, 0, 0, 1]

  /** OutOfRange stands for the panic of a slice beyond the capacity of the data. */
  datatype Split = Nalus(units: seq<seq<Byte>>) | OutOfRange

  // ---------- the scan ----------

  predicate Short(src: seq<Byte>, i: nat) {
    i + 3 <= |src| && src[i..i + 3] == START_CODE_3
  }

  predicate Long(src: seq<Byte>, i: nat) {
    i + 4 <= |src| && src[i..i + 4] == START_CODE_4
  }

  /**
   * The loop of ParseNalusN from a given state, and what follows it. The data are the first len bytes of
   * mem; slicing them reaches as far as mem does.
   */
  function Scan(mem: seq<Byte>, len: nat, pre: nat, index: nat, n: int, nalus: seq<seq<Byte>>): Split
    requires pre <= index <= |mem| && len <= |mem|
    decreases |mem| - index
  {
    if n == 1 then Finish(mem, len, pre, len, nalus)
    else if index + 3 > |mem| then OutOfRange
    else if Short(mem, index) then After(mem, len, pre, index, 3, n, nalus)
    else if index + 4 > |mem| then OutOfRange
    else if Long(mem, index) then After(mem, len, pre, index, 4, n, nalus)
    else if index + 5 > len then Finish(mem, len, pre, index + 1, nalus)
    else Scan(mem, len, pre, index + 1, n, nalus)
  }

  /** A start code of the given length at index. */
  function After(mem: seq<Byte>, len: nat, pre: nat, index: nat, code: nat, n: int, nalus: seq<seq<Byte>>): Split
    requires pre <= index && index + code <= |mem| && len <= |mem| && code > 0
    decreases |mem| - index, 0
  {
    if index > pre then
      Scan(mem, len, index + code, index + code, if n > 0 then n - 1 else n, nalus + [mem[pre..index]])
    else Scan(mem, len, index + code, index + code, n, nalus)
  }

  function Finish(mem: seq<Byte>, len: nat, pre: nat, index: nat, nalus: seq<seq<Byte>>): Split
    requires len <= |mem|
  {
    Nalus(if index > pre && pre < len then nalus + [mem[pre..len]] else nalus)
  }

  /** spare are the bytes between the length and the capacity of the slice. */
  function ParseNalusSpec(src: seq<Byte>, spare: seq<Byte>, n: int): Split {
    if |src| < 4 || n == 0 then Nalus([]) else Scan(src + spare, |src|, 0, 0, n, [])
  }

  method ParseNalusN(src: seq<Byte>, spare: seq<Byte>, n: int) returns (r: Split)
    ensures r == ParseNalusSpec(src, spare, n)
  {
    var nalus := [];
    if |src| < 4 { return Nalus(nalus); }
    if n == 0 { return Nalus(nalus); }
    var mem := src + spare;
    var left := n;
    var pre, index := 0, 0;
    while true
      invariant pre <= index <= |mem|
      invariant Scan(mem, |src|, pre, index, left, nalus) == ParseNalusSpec(src, spare, n)
      decreases |mem| - index
    {
      if left == 1 {
        index := |src|;
        break;
      }
      var bfind, startCodeLength := false, 0;
      if index + 3 > |mem| { return OutOfRange; }
      if mem[index..index + 3] == START_CODE_3 {
        startCodeLength, bfind := 3, true;
      } else {
        if index + 4 > |mem| { return OutOfRange; }
        if mem[index..index + 4] == START_CODE_4 {
          startCodeLength, bfind := 4, true;
        }
      }
      if bfind {
        if index > pre {
          nalus := nalus + [mem[pre..index]];
          if left > 0 {
            left := left - 1;
          }
        }
        index := index + startCodeLength;
        pre := index;
        continue;
      }
      index := index + 1;
      if index + 4 > |src| { break; }
    }
    assert Finish(mem, |src|, pre, index, nalus) == ParseNalusSpec(src, spare, n);
    if index > pre && pre < |src| {
      nalus := nalus + [mem[pre..|src|]];
    }
    return Nalus(nalus);
  }

  // ---------- every split, whatever the input ----------

  function Total(us: seq<seq<Byte>>): nat {
    if us == [] then 0 else Total(us[..|us| - 1]) + |us[|us| - 1]|
  }

  predicate NoneEmpty(us: seq<seq<Byte>>) {
    forall u :: u in us ==> u != []
  }

  lemma TotalSnoc(us: seq<seq<Byte>>, u: seq<Byte>)
    ensures Total(us + [u]) == Total(us) + |u|
    ensures NoneEmpty(us) && u != [] ==> NoneEmpty(us + [u])
  {
    assert (us + [u])[..|us|] == us;
  }

  lemma {:induction false} ScanIsSound(mem: seq<Byte>, len: nat, pre: nat, index: nat, n: int, done: seq<seq<Byte>>)
    requires pre <= index <= |mem| && len <= |mem| && NoneEmpty(done)
    requires index == pre || index + 4 <= len
    ensures var r := Scan(mem, len, pre, index, n, done);
      r.Nalus? ==>
        && NoneEmpty(r.units) && (n > 0 ==> |r.units| <= |done| + n)
        && Total(r.units) <= Total(done) + if pre < len then len - pre else 0
    decreases |mem| - index
  {
    hide Short, Long, NoneEmpty, Total;
    CodeBytes(mem, index);
    if pre < len { TotalSnoc(done, mem[pre..len]); }
    TotalSnoc(done, mem[pre..index]);
    if n == 1 || index + 3 > |mem| {
    } else if Short(mem, index) || (index + 4 <= |mem| && Long(mem, index)) {
      var next := index + if Short(mem, index) then 3 else 4;
      if index > pre {
        ScanIsSound(mem, len, next, next, if n > 0 then n - 1 else n, done + [mem[pre..index]]);
      } else {
        ScanIsSound(mem, len, next, next, n, done);
      }
    } else if index + 5 <= len {
      ScanIsSound(mem, len, pre, index + 1, n, done);
    }
  }

  /** At most n pieces, none empty, together never longer than the data: this is what sizes PackVideoData's buffer. */
  lemma UnitsFit(src: seq<Byte>, spare: seq<Byte>, n: int)
    ensures var r := ParseNalusSpec(src, spare, n);
      r.Nalus? ==>
        NoneEmpty(r.units) && Total(r.units) <= |src| && (n >= 0 ==> |r.units| <= n)
  {
    if |src| >= 4 && n != 0 {
      ScanIsSound(src + spare, |src|, 0, 0, n, []);
    }
  }

  // ---------- joining units, and splitting them again ----------

  /** A unit in which no start code begins; nothing else is asked of its bytes. */
  ghost predicate Clean(u: seq<Byte>) {
    u != [] && forall i: nat :: !Short(u, i)
  }

  function Code(long: bool): seq<Byte> {
    if long then START_CODE_4 else START_CODE_3
  }

  /** Every unit after its start code; codes[k] tells which one unit k gets. */
  function Join(us: seq<seq<Byte>>, codes: seq<bool>): seq<Byte>
    requires |codes| == |us|
    decreases |us|
  {
    if us == [] then [] else Code(codes[0]) + Headless(us, codes)
  }

  /** The same without the first start code. */
  function Headless(us: seq<seq<Byte>>, codes: seq<bool>): seq<Byte>
    requires |codes| == |us| > 0
    decreases |us|, 0
  {
    us[0] + Join(us[1..], codes[1..])
  }

  /** Unit k ends in a zero and a short code follows: the bytes are those of the long code, one byte early. */
  predicate Overlaps(us: seq<seq<Byte>>, codes: seq<bool>, k: nat)
    requires |codes| == |us|
  {
    k + 1 < |us| && !codes[k + 1] && EndsInZero(us[k])
  }

  predicate EndsInZero(u: seq<Byte>) {
    u != [] && u[|u| - 1] == 0
  }

  ghost predicate Separable(us: seq<seq<Byte>>, codes: seq<bool>)
    requires |codes| == |us|
  {
    && (forall k :: 0 <= k < |us| ==> Clean(us[k]))
    && (forall k: nat :: !Overlaps(us, codes, k))
  }

  /** What a split into at most n pieces (any number when n < 0) has to return. */
  function Pieces(us: seq<seq<Byte>>, codes: seq<bool>, n: int): seq<seq<Byte>>
    requires |codes| == |us| > 0 && n != 0
  {
    if 0 < n <= |us| then us[..n - 1] + [Headless(us[n - 1..], codes[n - 1..])] else us
  }

  /** The last unit is scanned unless the pieces ran out before; the scan looks four bytes ahead. */
  predicate LooksPastTheEnd(us: seq<seq<Byte>>, n: int)
    requires |us| > 0
  {
    !(0 < n <= |us|) && |us[|us| - 1]| < 4
  }

  /** The unit and the bytes behind the data are enough to look at, and do not make up a start code. */
  predicate Covered(u: seq<Byte>, spare: seq<Byte>) {
    |u + spare| >= 4 && !Short(u + spare, 0) && !Long(u + spare, 0)
  }

  /** What the caller can look at to know whether the last unit comes back. */
  predicate LastComesBack(us: seq<seq<Byte>>, spare: seq<Byte>, n: int)
    requires |us| > 0
  {
    LooksPastTheEnd(us, n) ==> Covered(us[|us| - 1], spare)
  }

  lemma CodeBytes(src: seq<Byte>, i: nat)
    ensures Short(src, i) <==> i + 3 <= |src| && src[i] == 0 && src[i + 1] == 0 && src[i + 2] == 1
    ensures Long(src, i) <==> i + 4 <= |src| && src[i] == 0 && Short(src, i + 1)
  {
    if i + 3 <= |src| {
      assert src[i..i + 3] == [src[i], src[i + 1], src[i + 2]];
    }
    if i + 4 <= |src| {
      assert src[i..i + 4] == [src[i], src[i + 1], src[i + 2], src[i + 3]];
      assert src[i + 1..i + 4] == [src[i + 1], src[i + 2], src[i + 3]];
    }
  }

  /** No start code begins inside a unit, not even one that ends beyond it. */
  lemma NoCodeInside(tail: seq<Byte>, u: seq<Byte>, long: bool, rest: seq<Byte>, i: nat)
    requires Clean(u) && i < |u|
    requires tail == u || (tail == u + Code(long) + rest && (long || !EndsInZero(u)))
    ensures !Short(tail, i) && !Long(tail, i)
  {
    CodeBytes(tail, i);
    CodeBytes(tail, i + 1);
    CodeBytes(u, i);
    CodeBytes(u, i + 1);
    assert !Short(u, i) && !Short(u, i + 1);
    if tail != u {
      hide Short, Long, Clean;
      var k := |u|;
      assert forall j :: 0 <= j < k ==> tail[j] == u[j];
      assert tail[k] == Code(long)[0] && tail[k + 1] == Code(long)[1] && tail[k + 2] == Code(long)[2];
    }
  }

  /** Codes are seen at the same places in the rest of the data as in the data. */
  lemma CodeInTail(src: seq<Byte>, p: nat, i: nat)
    requires p <= |src|
    ensures Short(src, p + i) <==> Short(src[p..], i)
    ensures Long(src, p + i) <==> Long(src[p..], i)
  {
    CodeBytes(src, p + i);
    CodeBytes(src, p + i + 1);
    CodeBytes(src[p..], i);
    CodeBytes(src[p..], i + 1);
  }

  /** Inside the data nothing depends on what is behind them. */
  lemma CodeUpTo(mem: seq<Byte>, len: nat, p: nat, i: nat)
    requires len <= |mem| && p + i + 4 <= len
    ensures Short(mem, p + i) <==> Short(mem[p..len], i)
    ensures Long(mem, p + i) <==> Long(mem[p..len], i)
  {
    CodeBytes(mem, p + i);
    CodeBytes(mem, p + i + 1);
    CodeBytes(mem[p..len], i);
    CodeBytes(mem[p..len], i + 1);
  }

  lemma CodeAtFront(mem: seq<Byte>, len: nat, p: nat, long: bool, rest: seq<Byte>)
    requires p <= len <= |mem| && mem[p..len] == Code(long) + rest && rest != []
    ensures if long then !Short(mem, p) && Long(mem, p) else Short(mem, p)
  {
    var tail := mem[p..len];
    assert tail[..|Code(long)|] == Code(long);
    CodeBytes(tail, 0);
    CodeBytes(tail, 1);
    CodeUpTo(mem, len, p, 0);
    CodeBytes(START_CODE_4, 1);
  }

  /** Scanning over a unit that is followed by another one. */
  lemma {:induction false} ScanUnit(mem: seq<Byte>, len: nat, p: nat, u: seq<Byte>, long: bool, rest: seq<Byte>,
                                    i: nat, n: int, done: seq<seq<Byte>>)
    requires Clean(u) && (long || !EndsInZero(u)) && i <= |u| && n != 1 && rest != []
    requires p <= len <= |mem| && mem[p..len] == u + Code(long) + rest
    ensures var next := p + |u| + |Code(long)|;
      next <= len
      && Scan(mem, len, p, p + i, n, done) == Scan(mem, len, next, next, if n > 0 then n - 1 else n, done + [u])
    decreases |u| - i
  {
    hide Short, Long, Clean, EndsInZero, Scan;
    var k := |u|;
    assert len == p + k + |Code(long)| + |rest|;
    if i < k {
      NoCodeInside(mem[p..len], u, long, rest, i);
      CodeUpTo(mem, len, p, i);
      ScanOn(mem, len, p, p + i, n, done);
      ScanUnit(mem, len, p, u, long, rest, i + 1, n, done);
    } else {
      ScanUnitEnd(mem, len, p, u, long, rest, n, done);
    }
  }

  lemma ScanOn(mem: seq<Byte>, len: nat, pre: nat, index: nat, n: int, done: seq<seq<Byte>>)
    requires pre <= index && index + 5 <= len <= |mem| && n != 1 && !Short(mem, index) && !Long(mem, index)
    ensures Scan(mem, len, pre, index, n, done) == Scan(mem, len, pre, index + 1, n, done)
  {
  }

  lemma ScanUnitEnd(mem: seq<Byte>, len: nat, p: nat, u: seq<Byte>, long: bool, rest: seq<Byte>,
                    n: int, done: seq<seq<Byte>>)
    requires Clean(u) && n != 1 && rest != [] && p <= len <= |mem| && mem[p..len] == u + Code(long) + rest
    ensures var next := p + |u| + |Code(long)|;
      next <= len
      && Scan(mem, len, p, p + |u|, n, done) == Scan(mem, len, next, next, if n > 0 then n - 1 else n, done + [u])
  {
    var k := |u|;
    assert u != [];
    hide Short, Long, Clean;
    assert mem[p..p + k] == mem[p..len][..k] == u;
    assert mem[p + k..len] == mem[p..len][k..] == Code(long) + rest;
    CodeAtFront(mem, len, p + k, long, rest);
  }

  /** Scanning the last unit. */
  lemma {:induction false} ScanLast(mem: seq<Byte>, len: nat, p: nat, u: seq<Byte>, i: nat, n: int,
                                    done: seq<seq<Byte>>)
    requires Clean(u) && n != 1 && p <= len <= |mem| && mem[p..len] == u
    requires i + 4 <= |u|
    ensures Scan(mem, len, p, p + i, n, done) == Nalus(done + [u])
    decreases |u| - i
  {
    assert len == p + |u|;
    NoCodeInside(mem[p..len], u, false, [], i);
    CodeUpTo(mem, len, p, i);
    if i + 5 <= |u| {
      ScanLast(mem, len, p, u, i + 1, n, done);
    }
  }

  /** The last unit is too short to look at it alone. */
  lemma ScanShort(mem: seq<Byte>, len: nat, p: nat, u: seq<Byte>, n: int, done: seq<seq<Byte>>)
    requires Clean(u) && n != 1 && p <= len <= |mem| && mem[p..len] == u && |u| < 4
    ensures var r := Scan(mem, len, p, p, n, done);
      if Covered(u, mem[len..]) then r == Nalus(done + [u])
      else (r == OutOfRange || r == Nalus(done)) && (len == |mem| ==> r == OutOfRange)
  {
    var tail := u + mem[len..];
    assert mem[p..] == tail && (len == |mem| ==> tail == u);
    CodeInTail(mem, p, 0);
    if Short(mem, p) || Long(mem, p) {
      NoCodeInside(u, u, false, [], 0);
      var code := if Short(mem, p) then 3 else 4;
      assert p + code >= len;
      ScanBeyond(mem, len, p + code, n, done);
      assert Scan(mem, len, p, p, n, done) == After(mem, len, p, p, code, n, done);
    }
  }

  /** Behind the data nothing is found any more. */
  lemma {:induction false} ScanBeyond(mem: seq<Byte>, len: nat, p: nat, n: int, done: seq<seq<Byte>>)
    requires len <= p <= |mem|
    ensures var r := Scan(mem, len, p, p, n, done); r == OutOfRange || r == Nalus(done)
    decreases |mem| - p
  {
    if n != 1 && p + 3 <= |mem| && (Short(mem, p) || Long(mem, p)) {
      var code := if Short(mem, p) then 3 else 4;
      ScanBeyond(mem, len, p + code, n, done);
    }
  }

  lemma {:induction false} ScanUnits(mem: seq<Byte>, len: nat, p: nat, us: seq<seq<Byte>>, codes: seq<bool>,
                                     n: int, done: seq<seq<Byte>>)
    requires |codes| == |us| > 0 && Separable(us, codes) && n != 0
    requires p <= len <= |mem| && mem[p..len] == Headless(us, codes)
    ensures var r := Scan(mem, len, p, p, n, done);
      if LastComesBack(us, mem[len..], n) then r == Nalus(done + Pieces(us, codes, n))
      else (r == OutOfRange || r == Nalus(done + us[..|us| - 1])) && (len == |mem| ==> r == OutOfRange)
    decreases |us|
  {
    hide Short, Long, Pieces, Clean, Scan, Separable, Headless, Covered;
    CleanIsNonempty(us, codes);
    if n == 1 {
      OnePiece(mem, len, p, us, codes, done);
    } else if |us| == 1 {
      LastPiece(us, codes, n);
      assert done + us[..0] == done;
      if |us[0]| >= 4 {
        ScanLast(mem, len, p, us[0], 0, n, done);
      } else {
        ScanShort(mem, len, p, us[0], n, done);
      }
    } else {
      var rest, marks := us[1..], codes[1..];
      var tail := Headless(rest, marks);
      var next := p + |us[0]| + |Code(marks[0])|;
      SplitStep(us, codes);
      ScanUnit(mem, len, p, us[0], marks[0], tail, 0, n, done);
      assert mem[next..len] == mem[p..len][|us[0]| + |Code(marks[0])|..] == tail;
      var m := if n > 0 then n - 1 else n;
      ScanUnits(mem, len, next, rest, marks, m, done + [us[0]]);
      PiecesStep(us, codes, n);
      Regroup(done, [us[0]], Pieces(rest, marks, m));
      FrontStep(us);
      Regroup(done, [us[0]], rest[..|rest| - 1]);
      assert rest[|rest| - 1] == us[|us| - 1];
    }
  }

  lemma FrontStep(us: seq<seq<Byte>>)
    requires |us| > 1
    ensures us[..|us| - 1] == [us[0]] + us[1..][..|us| - 2]
  {
  }

  lemma OnePiece(mem: seq<Byte>, len: nat, p: nat, us: seq<seq<Byte>>, codes: seq<bool>, done: seq<seq<Byte>>)
    requires |codes| == |us| > 0 && p < len <= |mem| && mem[p..len] == Headless(us, codes)
    ensures Scan(mem, len, p, p, 1, done) == Nalus(done + Pieces(us, codes, 1))
  {
    assert us[0..] == us && codes[0..] == codes;
    assert Pieces(us, codes, 1) == [mem[p..len]];
  }

  lemma LastPiece(us: seq<seq<Byte>>, codes: seq<bool>, n: int)
    requires |codes| == |us| == 1 && Separable(us, codes) && n != 0 && n != 1
    ensures Clean(us[0]) && Headless(us, codes) == us[0] && Pieces(us, codes, n) == [us[0]]
  {
    assert Join(us[1..], codes[1..]) == [];
  }

  lemma SplitStep(us: seq<seq<Byte>>, codes: seq<bool>)
    requires |codes| == |us| > 1 && Separable(us, codes)
    ensures Separable(us[1..], codes[1..])
    ensures Clean(us[0]) && (codes[1] || !EndsInZero(us[0])) && Headless(us[1..], codes[1..]) != []
    ensures Headless(us, codes) == us[0] + Code(codes[1]) + Headless(us[1..], codes[1..])
  {
    var rest, marks := us[1..], codes[1..];
    assert !Overlaps(us, codes, 0);
    RestSeparable(us, codes);
    hide Clean, Overlaps, Separable;
    assert Headless(rest, marks) != [] by { CleanIsNonempty(rest, marks); }
    assert us[0] + (Code(marks[0]) + Headless(rest, marks)) == us[0] + Code(codes[1]) + Headless(rest, marks);
  }

  lemma RestSeparable(us: seq<seq<Byte>>, codes: seq<bool>)
    requires |codes| == |us| > 1 && Separable(us, codes)
    ensures Separable(us[1..], codes[1..])
  {
    hide Clean, EndsInZero;
    forall k: nat ensures !Overlaps(us[1..], codes[1..], k) {
      assert !Overlaps(us, codes, k + 1);
    }
  }

  lemma PiecesStep(us: seq<seq<Byte>>, codes: seq<bool>, n: int)
    requires |codes| == |us| > 1 && n != 0 && n != 1
    ensures Pieces(us, codes, n) == [us[0]] + Pieces(us[1..], codes[1..], if n > 0 then n - 1 else n)
  {
    if 0 < n <= |us| {
      assert us[1..][n - 2..] == us[n - 1..] && codes[1..][n - 2..] == codes[n - 1..];
      assert us[..n - 1] == [us[0]] + us[1..][..n - 2];
    }
  }

  /**
   * Splitting inverts joining, for any mix of start codes, with or without one in front, for every limit n
   * and whatever is behind the data. It fails exactly when the last unit has to be scanned, is under four
   * bytes, and the bytes behind it are too few or complete a start code with it.
   */
  lemma SplitInvertsJoin(us: seq<seq<Byte>>, codes: seq<bool>, lead: bool, spare: seq<Byte>, n: int)
    requires |codes| == |us| > 0 && Separable(us, codes) && n != 0
    requires lead || |Headless(us, codes)| >= 4
    ensures var src := if lead then Join(us, codes) else Headless(us, codes);
      var r := ParseNalusSpec(src, spare, n);
      if n == 1 then r == Nalus([src])
      else if LastComesBack(us, spare, n) then r == Nalus(Pieces(us, codes, n))
      else (r == OutOfRange || r == Nalus(us[..|us| - 1])) && (spare == [] ==> r == OutOfRange)
  {
    hide Clean, Short, Long, Headless, Pieces, Separable, LastComesBack, Scan;
    assert Headless(us, codes) != [] by { CleanIsNonempty(us, codes); }
    var src := if lead then Join(us, codes) else Headless(us, codes);
    var mem, len := src + spare, |src|;
    assert mem[len..] == spare;
    assert [] + Pieces(us, codes, n) == Pieces(us, codes, n) && [] + us[..|us| - 1] == us[..|us| - 1];
    if n == 1 {
      WholePiece(src, spare);
    } else if lead {
      var p := |Code(codes[0])|;
      assert mem[p..len] == Headless(us, codes);
      LeadSkipped(src, spare, codes[0], Headless(us, codes), n);
      ScanUnits(mem, len, p, us, codes, n, []);
    } else {
      assert mem[0..len] == src;
      ScanUnits(mem, len, 0, us, codes, n, []);
    }
  }

  lemma WholePiece(src: seq<Byte>, spare: seq<Byte>)
    requires |src| >= 4
    ensures ParseNalusSpec(src, spare, 1) == Nalus([src])
  {
    assert (src + spare)[0..|src|] == src;
  }

  lemma LeadSkipped(src: seq<Byte>, spare: seq<Byte>, long: bool, rest: seq<Byte>, n: int)
    requires src == Code(long) + rest && rest != [] && n != 0 && n != 1
    ensures ParseNalusSpec(src, spare, n) == Scan(src + spare, |src|, |Code(long)|, |Code(long)|, n, [])
  {
    var mem := src + spare;
    assert mem[0..|src|] == src;
    CodeAtFront(mem, |src|, 0, long, rest);
    var p := |Code(long)|;
    assert Scan(mem, |src|, 0, 0, n, []) == After(mem, |src|, 0, 0, p, n, []);
  }

  lemma CleanIsNonempty(us: seq<seq<Byte>>, codes: seq<bool>)
    requires |codes| == |us| > 0 && Separable(us, codes)
    ensures Headless(us, codes) != []
  {
    assert Clean(us[0]);
  }

  // ---------- what a unit that ends in a zero comes back as ----------

  /** Units that end in a zero before a short code lose that zero to the code. */
  function Trimmed(us: seq<seq<Byte>>, codes: seq<bool>): (r: seq<seq<Byte>>)
    requires |codes| == |us|
    ensures |r| == |us|
  {
    seq(|us|, k requires 0 <= k < |us| => if Overlaps(us, codes, k) then us[k][..|us[k]| - 1] else us[k])
  }

  function Widened(us: seq<seq<Byte>>, codes: seq<bool>): (r: seq<bool>)
    requires |codes| == |us|
    ensures |r| == |us|
  {
    seq(|us|, k requires 0 <= k < |us| => codes[k] || (k > 0 && Overlaps(us, codes, k - 1)))
  }

  lemma SettledStep(us: seq<seq<Byte>>, codes: seq<bool>)
    requires |codes| == |us| > 1
    ensures Trimmed(us, codes)[1..] == Trimmed(us[1..], codes[1..])
    ensures Widened(us, codes)[1..][1..] == Widened(us[1..], codes[1..])[1..]
    ensures us[0] + Code(codes[1]) == Trimmed(us, codes)[0] + Code(Widened(us, codes)[1])
  {
    forall k: nat ensures Overlaps(us[1..], codes[1..], k) == Overlaps(us, codes, k + 1) {}
    if Overlaps(us, codes, 0) {
      assert us[0] == us[0][..|us[0]| - 1] + [0];
      assert [0] + START_CODE_3 == START_CODE_4;
    }
  }

  /** Joining the trimmed units gives the very same bytes, so no splitter can tell the two apart. */
  lemma {:induction false} SameBytes(us: seq<seq<Byte>>, codes: seq<bool>)
    requires |codes| == |us| > 0
    ensures Headless(us, codes) == Headless(Trimmed(us, codes), Widened(us, codes))
    decreases |us|
  {
    var ts, ws := Trimmed(us, codes), Widened(us, codes);
    if |us| == 1 {
      assert us[1..] == ts[1..] == [] && codes[1..] == ws[1..] == [];
    } else {
      SettledStep(us, codes);
      SameBytes(us[1..], codes[1..]);
      hide Trimmed, Widened, Overlaps, Code;
      var a, b := Trimmed(us[1..], codes[1..]), Widened(us[1..], codes[1..]);
      assert a == ts[1..] && b[1..] == ws[1..][1..];
      assert Headless(a, b) == Headless(ts[1..], ws[1..]);
      var x := Headless(us[1..], codes[1..]);
      assert us[0] + (Code(codes[1]) + x) == (us[0] + Code(codes[1])) + x;
      assert ts[0] + (Code(ws[1]) + x) == (ts[0] + Code(ws[1])) + x;
    }
  }

  lemma TrimmedIsSeparable(us: seq<seq<Byte>>, codes: seq<bool>)
    requires |codes| == |us| && forall k :: 0 <= k < |us| ==> Clean(us[k]) && |us[k]| >= 2
    ensures Separable(Trimmed(us, codes), Widened(us, codes))
  {
    var ts, ws := Trimmed(us, codes), Widened(us, codes);
    forall k | 0 <= k < |us| ensures Clean(ts[k]) {
      forall i: nat ensures !Short(ts[k], i) {
        CodeBytes(ts[k], i);
        CodeBytes(us[k], i);
        assert !Short(us[k], i);
      }
    }
    forall k: nat ensures !Overlaps(ts, ws, k) {
      if k + 1 < |us| {
        assert ws[k + 1] == (codes[k + 1] || Overlaps(us, codes, k));
      }
    }
  }

  /**
   * Units of two bytes or more, the last one of four or more, come back as they were exactly when
   * none of them ends in a zero in front of a short start code.
   */
  lemma RoundTripExactly(us: seq<seq<Byte>>, codes: seq<bool>, spare: seq<Byte>)
    requires |codes| == |us| > 0 && |us[|us| - 1]| >= 4
    requires forall k :: 0 <= k < |us| ==> Clean(us[k]) && |us[k]| >= 2
    ensures ParseNalusSpec(Join(us, codes), spare, -1) == Nalus(Trimmed(us, codes))
    ensures ParseNalusSpec(Join(us, codes), spare, -1) == Nalus(us) <==> forall k: nat :: !Overlaps(us, codes, k)
  {
    var ts, ws := Trimmed(us, codes), Widened(us, codes);
    assert ws[0] == codes[0];
    SameBytes(us, codes);
    TrimmedIsSeparable(us, codes);
    SplitInvertsJoin(ts, ws, true, spare, -1);
    forall k: nat | Overlaps(us, codes, k) ensures |ts[k]| != |us[k]| {}
    if forall k: nat :: !Overlaps(us, codes, k) {
      assert ts == us;
    }
  }
}

/** Printing messages as one byte stream and receiving them, in any chunks: exactly when that gives
    them back. */
module RoundTrip {
  import opened Types
  import opened Fix
  import opened Framing

  const TRAILER := Field(10, "000")

  predicate NoTrailerIn(value: string) {
    forall i :: 0 <= i < |value| ==> !TrailerAt(value, i)
  }

  /** The framing loop takes this field for the trailer: `find("10=")` is not anchored, so a tag that
      ends in 10 or a value that holds "10=" does as well as the trailer itself. */
  predicate Ends(f: Field) {
    f.tag % 100 == 10 || !NoTrailerIn(f.value)
  }

  /** No field can be taken for the trailer. */
  predicate Clean(fs: seq<Field>) {
    forall i :: 0 <= i < |fs| ==> !Ends(fs[i])
  }

  function PrintMessage(fs: seq<Field>): string {
    PrintFields(fs + [TRAILER])
  }

  function PrintStream(ms: seq<seq<Field>>): string {
    if ms == [] then "" else PrintMessage(ms[0]) + PrintStream(ms[1..])
  }

  // ---------- one field ----------

  lemma LastDigit(n: nat)
    ensures var s := PrintNat(n); s[|s| - 1] == DigitChar(n % 10)
  {}

  lemma Remainder(n: nat, a: nat, r: nat)
    requires n == 100 * a + r && r < 100
    ensures n % 100 == r
  {}

  lemma LastTwoDigits(n: nat)
    ensures n % 100 == n / 10 % 10 * 10 + n % 10
  {
    SplitTen(n);
    SplitTen(n / 10);
    Remainder(n, n / 10 / 10, n / 10 % 10 * 10 + n % 10);
  }

  lemma TenIsLast(n: nat)
    ensures var s := PrintNat(n);
      |s| >= 2 && s[|s| - 2] == '1' && s[|s| - 1] == '0' <==> n % 100 == 10
  {
    LastDigit(n);
    LastTwoDigits(n);
    if n >= 10 {
      LastDigit(n / 10);
      assert PrintNat(n)[|PrintNat(n)| - 2] == PrintNat(n / 10)[|PrintNat(n / 10)| - 1];
    }
  }

  /** Where a printed field can be mistaken: at the end of its tag, or inside its value. */
  lemma TrailerInField(f: Field, tail: string, i: nat)
    requires i < |PrintField(f)|
    ensures var n := |PrintNat(f.tag)|;
      TrailerAt(PrintField(f) + tail, i) <==>
        (i + 2 == n && f.tag % 100 == 10) || (n < i <= n + |f.value| && TrailerAt(f.value, i - n - 1))
  {
    hide PrintNat;
    var digits := PrintNat(f.tag);
    var n := |digits|;
    var s := PrintField(f) + tail;
    TenIsLast(f.tag);
    assert forall j :: 0 <= j < n ==> s[j] == digits[j] && digits[j] in digits;
    assert forall j :: n < j < n + 1 + |f.value| ==> s[j] == f.value[j - n - 1];
    assert s[n] == '=' && s[n + 1 + |f.value|] == SOH;
  }

  lemma TrailerShift(s: string, k: nat, i: nat)
    requires k <= i && k <= |s|
    ensures TrailerAt(s, i) <==> TrailerAt(s[k..], i - k)
  {}

  /** A field that is not taken for the trailer is passed over. */
  lemma SkipField(f: Field, tail: string)
    requires !Ends(f)
    ensures var n := |PrintField(f)|;
      FrameEnd(PrintField(f) + tail) == match FrameEnd(tail) case None => None case Some(k) => Some(n + k)
  {
    hide PrintField, FindTrailer, IndexOf, TrailerAt;
    var n := |PrintField(f)|;
    var s := PrintField(f) + tail;
    forall i | 0 <= i < n ensures !TrailerAt(s, i) {
      TrailerInField(f, tail, i);
    }
    assert s[n..] == tail;
    forall i | n <= i < |s| ensures TrailerAt(s, i) <==> TrailerAt(tail, i - n) {
      TrailerShift(s, n, i);
    }
    var i, j := FindTrailer(s), FindTrailer(tail);
    if j < |tail| {
      assert TrailerAt(s, n + j);
    }
    assert i == n + j;
    assert s[i..] == tail[j..];
  }

  /** A field that is taken for the trailer ends the frame. */
  lemma FieldEndsFrame(f: Field, tail: string)
    requires Ends(f) && SOH !in f.value
    ensures FrameEnd(PrintField(f) + tail) == Some(|PrintField(f)|)
  {
    hide FindTrailer, IndexOf, TrailerAt, PrintNat;
    var s := PrintField(f) + tail;
    var n, last := |PrintNat(f.tag)|, |PrintField(f)| - 1;
    TenIsLast(f.tag);
    var hit := if f.tag % 100 == 10 then n - 2
      else var k :| 0 <= k < |f.value| && TrailerAt(f.value, k); n + 1 + k;
    TrailerInField(f, tail, hit);
    var i := FindTrailer(s);
    assert i <= hit < last;
    assert PrintField(f)[..last] == PrintNat(f.tag) + "=" + f.value;
    assert s == PrintField(f)[..last] + [SOH] + tail;
    assert s[i..] == PrintField(f)[i..last] + [SOH] + tail;
    assert forall c :: c in PrintField(f)[i..last] ==> c in PrintField(f)[..last];
    IndexOfConcat(PrintField(f)[i..last], SOH, tail);
  }

  // ---------- many fields ----------

  /** The first field taken for the trailer. */
  function FirstEnd(fs: seq<Field>): (k: nat)
    ensures k <= |fs| && Clean(fs[..k]) && (k < |fs| ==> Ends(fs[k]))
  {
    if fs == [] || Ends(fs[0]) then 0
    else
      var k := FirstEnd(fs[1..]) + 1;
      assert fs[..k] == [fs[0]] + fs[1..][..k - 1];
      k
  }

  lemma CleanUpTo(fs: seq<Field>, k: nat)
    requires k <= |fs|
    ensures Clean(fs[..k]) <==> forall i :: 0 <= i < k ==> !Ends(fs[i])
  {
    hide Ends;
    assert forall i :: 0 <= i < k ==> fs[..k][i] == fs[i];
  }

  lemma FirstEndUnique(fs: seq<Field>, k: nat)
    requires k <= |fs| && Clean(fs[..k]) && (k < |fs| ==> Ends(fs[k]))
    ensures FirstEnd(fs) == k
  {
    hide Ends, Clean;
    CleanUpTo(fs, k);
    CleanUpTo(fs, FirstEnd(fs));
  }

  /** The first frame ends with the first field taken for the trailer; without one there is none. */
  lemma {:induction false} FirstFrame(fs: seq<Field>, tail: string)
    requires Printable(fs)
    ensures var k := FirstEnd(fs);
      if k < |fs| then FrameEnd(PrintFields(fs) + tail) == Some(|PrintFields(fs[..k + 1])|)
      else tail == "" ==> FrameEnd(PrintFields(fs) + tail).None?
    decreases |fs|
  {
    hide FrameEnd, Ends, PrintField;
    if fs == [] {
      NoFrameInNothing();
    } else {
      var rest := PrintFields(fs[1..]) + tail;
      var k := FirstEnd(fs);
      Assoc(PrintField(fs[0]), PrintFields(fs[1..]), tail);
      if Ends(fs[0]) {
        FieldEndsFrame(fs[0], rest);
        assert fs[..1] == [fs[0]] && [fs[0]][1..] == [] && PrintField(fs[0]) + [] == PrintField(fs[0]);
      } else {
        SkipField(fs[0], rest);
        FirstFrame(fs[1..], tail);
        if k < |fs| { assert fs[..k + 1][1..] == fs[1..][..k]; }
      }
    }
  }

  lemma {:induction false} PrintFieldsConcat(fs: seq<Field>, gs: seq<Field>)
    ensures PrintFields(fs + gs) == PrintFields(fs) + PrintFields(gs)
    decreases |fs|
  {
    if fs == [] {
      assert fs + gs == gs;
    } else {
      hide PrintField;
      assert (fs + gs)[1..] == fs[1..] + gs;
      PrintFieldsConcat(fs[1..], gs);
      Assoc(PrintField(fs[0]), PrintFields(fs[1..]), PrintFields(gs));
    }
  }

  lemma {:induction false} LongerPrintsLonger(fs: seq<Field>, k: nat)
    requires k < |fs|
    ensures |PrintFields(fs[..k])| < |PrintFields(fs)|
  {
    assert fs == fs[..k] + fs[k..];
    PrintFieldsConcat(fs[..k], fs[k..]);
  }

  /** A printed message is exactly one frame, whatever follows it, if and only if none of its fields
      can be taken for the trailer. */
  lemma MessageIsOneFrameIff(fs: seq<Field>, tail: string)
    requires Printable(fs)
    ensures FrameEnd(PrintMessage(fs) + tail) == Some(|PrintMessage(fs)|) <==> Clean(fs)
  {
    hide FrameEnd, PrintFields, Ends;
    var gs := fs + [TRAILER];
    var k := FirstEnd(gs);
    TrailerEnds();
    assert gs[|fs|] == TRAILER && gs[..|fs|] == fs;
    FirstFrame(gs, tail);
    if Clean(fs) {
      FirstEndUnique(gs, |fs|);
      assert gs[..|fs| + 1] == gs;
    } else {
      CleanUpTo(gs, k);
      LongerPrintsLonger(gs, k + 1);
    }
  }

  lemma TrailerEnds()
    ensures Ends(TRAILER)
  {}

  /** MinQty, tag 110 of a New Order - Single, cuts its message in two: 6 bytes of 13 are a frame. */
  lemma MinQtyEndsFrame()
    ensures var fs := [Field(110, "5")];
      Printable(fs) && FrameEnd(PrintMessage(fs)) == Some(6) && |PrintMessage(fs)| == 13
  {
    hide PrintNat, FrameEnd;
    var f := Field(110, "5");
    Digits110();
    PrintTwo(f, TRAILER);
    FieldEndsFrame(f, PrintField(TRAILER));
  }

  lemma PrintTwo(f: Field, g: Field)
    ensures PrintFields([f] + [g]) == PrintField(f) + PrintField(g)
  {
    hide PrintField;
    var fs := [f] + [g];
    assert fs[1..] == [g] && [g][1..] == [];
    assert PrintFields([g]) == PrintField(g) + [] == PrintField(g);
  }

  lemma Digits110()
    ensures PrintNat(110) == "110" && PrintNat(10) == "10"
  {
    assert PrintNat(1) == "1" && PrintNat(11) == PrintNat(1) + "1";
    assert PrintNat(110) == PrintNat(11) + "0" && PrintNat(10) == PrintNat(1) + "0";
  }

  // ---------- any stream of printed fields ----------

  /** The fields of each frame. */
  function Groups(fs: seq<Field>): seq<seq<Field>>
    decreases |fs|
  {
    var k := FirstEnd(fs);
    if k == |fs| then [] else [fs[..k + 1]] + Groups(fs[k + 1..])
  }

  /** The fields after the last frame. */
  function Unfinished(fs: seq<Field>): seq<Field>
    decreases |fs|
  {
    var k := FirstEnd(fs);
    if k == |fs| then fs else Unfinished(fs[k + 1..])
  }

  function Folded(ms: seq<seq<Field>>): seq<FixMessage> {
    if ms == [] then [] else [Fold(RESET, ms[0])] + Folded(ms[1..])
  }

  /** What any stream of printed fields is received as: one message per field taken for the trailer,
      made of the fields since the one before; the others wait in the accumulator. */
  lemma {:induction false} FieldsReceived(fs: seq<Field>)
    requires Printable(fs)
    ensures Messages(Frames(PrintFields(fs)).frames) == Folded(Groups(fs))
    ensures Frames(PrintFields(fs)).leftover == PrintFields(Unfinished(fs))
    decreases |fs|
  {
    hide FrameEnd, Ends, PrintFields, MessageOf, Frames, Messages;
    var s, k := PrintFields(fs), FirstEnd(fs);
    FirstFrame(fs, "");
    assert s + "" == s;
    if k < |fs| {
      var first, rest := fs[..k + 1], fs[k + 1..];
      assert fs == first + rest;
      PrintFieldsConcat(first, rest);
      var n := |PrintFields(first)|;
      assert s[..n] == PrintFields(first) && s[n..] == PrintFields(rest);
      FieldsReceived(rest);
      ReceiveOne(first);
      CutOne(s, n);
      FirstMessage(s[..n], Frames(s[n..]).frames);
      assert Folded([first] + Groups(rest)) == [Fold(RESET, first)] + Folded(Groups(rest)) by {
        assert ([first] + Groups(rest))[1..] == Groups(rest);
      }
    } else {
      CutNothing(s);
      OneMessage("");
    }
  }

  lemma FirstMessage(frame: string, frames: seq<string>)
    ensures Messages([frame] + frames) == MessageOf(frame) + Messages(frames)
  {
    assert ([frame] + frames)[1..] == frames;
  }

  lemma ReceiveOne(fs: seq<Field>)
    requires Printable(fs)
    ensures MessageOf(PrintFields(fs)) == [Fold(RESET, fs)]
  {
    hide Parse, PrintFields;
    ParsePrint(fs, RESET);
  }

  // ---------- streams of messages ----------

  /** How many fields can be taken for the trailer. */
  function Enders(fs: seq<Field>): nat {
    if fs == [] then 0 else (if Ends(fs[0]) then 1 else 0) + Enders(fs[1..])
  }

  lemma {:induction false} EndersConcat(fs: seq<Field>, gs: seq<Field>)
    ensures Enders(fs + gs) == Enders(fs) + Enders(gs)
  {
    hide Ends;
    if fs == [] {
      assert fs + gs == gs;
    } else {
      assert (fs + gs)[1..] == fs[1..] + gs;
      EndersConcat(fs[1..], gs);
    }
  }

  lemma {:induction false} CleanHasNoEnders(fs: seq<Field>)
    ensures Clean(fs) <==> Enders(fs) == 0
  {
    hide Ends;
    if fs != [] {
      CleanHasNoEnders(fs[1..]);
      assert Clean(fs) <==> !Ends(fs[0]) && Clean(fs[1..]) by {
        assert forall i :: 0 <= i < |fs[1..]| ==> fs[1..][i] == fs[i + 1];
      }
    }
  }

  lemma {:induction false} GroupCount(fs: seq<Field>)
    ensures |Groups(fs)| == Enders(fs)
    decreases |fs|
  {
    hide Ends, Enders, Clean;
    var k := FirstEnd(fs);
    CleanHasNoEnders(fs[..k]);
    if k == |fs| {
      assert fs[..k] == fs;
    } else {
      assert fs == fs[..k] + ([fs[k]] + fs[k + 1..]);
      EndersConcat(fs[..k], [fs[k]] + fs[k + 1..]);
      OneEnder(fs[k], fs[k + 1..]);
      GroupCount(fs[k + 1..]);
    }
  }

  lemma OneEnder(f: Field, fs: seq<Field>)
    requires Ends(f)
    ensures Enders([f] + fs) == 1 + Enders(fs)
  {
    assert ([f] + fs)[1..] == fs;
  }

  lemma NoFields()
    ensures Clean([]) && Enders([]) == 0
  {}

  function Flatten(ms: seq<seq<Field>>): seq<Field> {
    if ms == [] then [] else ms[0] + [TRAILER] + Flatten(ms[1..])
  }

  predicate AllPrintable(ms: seq<seq<Field>>) {
    forall i :: 0 <= i < |ms| ==> Printable(ms[i])
  }

  predicate AllClean(ms: seq<seq<Field>>) {
    forall i :: 0 <= i < |ms| ==> Clean(ms[i])
  }

  lemma {:induction false} FlattenPrints(ms: seq<seq<Field>>)
    requires AllPrintable(ms)
    ensures PrintStream(ms) == PrintFields(Flatten(ms)) && Printable(Flatten(ms))
  {
    if ms != [] {
      hide PrintFields;
      assert AllPrintable(ms[1..]);
      FlattenPrints(ms[1..]);
      PrintFieldsConcat(ms[0] + [TRAILER], Flatten(ms[1..]));
    }
  }

  /** A stream falls into as many frames as it has messages, and one more for every field of theirs
      that can be taken for the trailer. */
  lemma {:induction false} FlattenEnders(ms: seq<seq<Field>>)
    ensures Enders(Flatten(ms)) >= |ms|
    ensures Enders(Flatten(ms)) == |ms| <==> AllClean(ms)
  {
    hide Ends, Enders, Clean;
    NoFields();
    if ms != [] {
      assert AllClean(ms) <==> Clean(ms[0]) && AllClean(ms[1..]) by {
        assert forall i :: 0 <= i < |ms[1..]| ==> ms[1..][i] == ms[i + 1];
      }
      FlattenEnders(ms[1..]);
      CleanHasNoEnders(ms[0]);
      TrailerEnds();
      OneEnder(TRAILER, Flatten(ms[1..]));
      assert Flatten(ms) == ms[0] + ([TRAILER] + Flatten(ms[1..]));
      EndersConcat(ms[0], [TRAILER] + Flatten(ms[1..]));
    }
  }

  lemma {:induction false} FoldedLength(ms: seq<seq<Field>>)
    ensures |Folded(ms)| == |ms|
  {
    if ms != [] { FoldedLength(ms[1..]); }
  }

  lemma TrailerIgnored(fs: seq<Field>)
    ensures Fold(RESET, fs + [TRAILER]) == Fold(RESET, fs)
  {
    FoldLastField(RESET, fs + [TRAILER]);
    assert (fs + [TRAILER])[..|fs|] == fs;
  }

  lemma {:induction false} CleanGroups(ms: seq<seq<Field>>)
    requires AllClean(ms)
    ensures Folded(Groups(Flatten(ms))) == Folded(ms)
    decreases |ms|
  {
    hide Ends, Fold;
    if ms != [] {
      var fs, n := Flatten(ms), |ms[0]|;
      TrailerEnds();
      assert fs[..n] == ms[0] && fs[n] == TRAILER;
      FirstEndUnique(fs, n);
      assert fs[..n + 1] == ms[0] + [TRAILER] && fs[n + 1..] == Flatten(ms[1..]);
      TrailerIgnored(ms[0]);
      CleanGroups(ms[1..]);
      assert Groups(fs)[1..] == Groups(Flatten(ms[1..]));
    }
  }

  lemma {:induction false} NothingUnfinished(fs: seq<Field>)
    requires fs == [] || Ends(fs[|fs| - 1])
    ensures Unfinished(fs) == []
    decreases |fs|
  {
    hide Ends, Clean;
    if fs != [] {
      var k := FirstEnd(fs);
      CleanUpTo(fs, k);
      NothingUnfinished(fs[k + 1..]);
    }
  }

  lemma {:induction false} FlattenEnds(ms: seq<seq<Field>>)
    ensures var fs := Flatten(ms); fs == [] || fs[|fs| - 1] == TRAILER
  {
    if ms != [] { FlattenEnds(ms[1..]); }
  }

  /** Printing any list of messages as one stream and cutting it up returns the same messages if and
      only if no field of any of them can be taken for the trailer; nothing is left over either way. */
  lemma StreamRoundTripIff(ms: seq<seq<Field>>)
    requires AllPrintable(ms)
    ensures Messages(Frames(PrintStream(ms)).frames) == Folded(ms) <==> AllClean(ms)
    ensures Frames(PrintStream(ms)).leftover == ""
  {
    hide Frames, Messages, Groups, Enders, Flatten, Ends, Folded, Unfinished;
    var fs := Flatten(ms);
    FlattenPrints(ms);
    FieldsReceived(fs);
    FlattenEnders(ms);
    GroupCount(fs);
    FoldedLength(Groups(fs));
    FoldedLength(ms);
    FlattenEnds(ms);
    TrailerEnds();
    NothingUnfinished(fs);
    if AllClean(ms) { CleanGroups(ms); }
  }

  // ---------- whole messages ----------

  /** What a client can send: decimal quantity and price, and no delimiter in any text. */
  predicate Sendable(m: FixMessage) {
    && m.qty >= 0 && m.price >= 0 && SOH !in [m.msgType, m.side, m.ordType]
    && SOH !in m.clOrdID && SOH !in m.origClOrdID
  }

  function FieldsOf(m: FixMessage): seq<Field>
    requires Sendable(m)
  {
    [Field(35, [m.msgType]), Field(11, m.clOrdID), Field(41, m.origClOrdID), Field(54, [m.side]),
     Field(38, PrintNat(m.qty)), Field(44, PrintPrice(m.price)), Field(40, [m.ordType])]
  }

  lemma NoEqualsNoTrailer(s: string)
    requires '=' !in s || |s| < 3
    ensures NoTrailerIn(s)
  {}

  /** Only the two ids can be taken for a trailer. */
  lemma FieldsCleanIff(m: FixMessage)
    requires Sendable(m)
    ensures Printable(FieldsOf(m))
    ensures Clean(FieldsOf(m)) <==> NoTrailerIn(m.clOrdID) && NoTrailerIn(m.origClOrdID)
  {
    hide NoTrailerIn, PrintNat, PrintPrice;
    var fs := FieldsOf(m);
    NumbersArePlain(m);
    NoEqualsNoTrailer(PrintNat(m.qty));
    NoEqualsNoTrailer(PrintPrice(m.price));
    NoEqualsNoTrailer([m.msgType]);
    NoEqualsNoTrailer([m.side]);
    NoEqualsNoTrailer([m.ordType]);
    assert fs[1].value == m.clOrdID && fs[2].value == m.origClOrdID;
  }

  lemma NumbersArePlain(m: FixMessage)
    requires Sendable(m)
    ensures '=' !in PrintNat(m.qty) && SOH !in PrintNat(m.qty)
    ensures '=' !in PrintPrice(m.price) && SOH !in PrintPrice(m.price)
  {
    var a, b := PrintNat(m.price / 10000), PrintFour(m.price % 10000);
    assert forall c :: c in PrintPrice(m.price) ==> c in a || c == '.' || c in b;
  }

  lemma FieldsRoundTrip(m: FixMessage)
    requires Sendable(m)
    ensures Fold(RESET, FieldsOf(m)) == m
  {
    hide Value, Decimal, PrintNat, PrintPrice;
    ValueOfPrint(m.qty);
    PriceRoundTrip(m.price);
    var fs := FieldsOf(m);
    FoldSeven(fs);
  }

  lemma FoldStep(m: FixMessage, fs: seq<Field>, i: nat)
    requires i < |fs|
    ensures Fold(m, fs[i..]) == Fold(SetField(m, fs[i].tag, fs[i].value), fs[i + 1..])
  {
    assert fs[i..][1..] == fs[i + 1..];
  }

  lemma FoldSeven(fs: seq<Field>)
    requires |fs| == 7
    ensures Fold(RESET, fs) ==
      SetField(SetField(SetField(SetField(SetField(SetField(SetField(RESET,
        fs[0].tag, fs[0].value), fs[1].tag, fs[1].value), fs[2].tag, fs[2].value), fs[3].tag, fs[3].value),
        fs[4].tag, fs[4].value), fs[5].tag, fs[5].value), fs[6].tag, fs[6].value)
  {
    hide SetField;
    var m := RESET;
    assert fs[0..] == fs && fs[7..] == [];
    FoldStep(m, fs, 0);
    m := SetField(m, fs[0].tag, fs[0].value);
    FoldStep(m, fs, 1);
    m := SetField(m, fs[1].tag, fs[1].value);
    FoldStep(m, fs, 2);
    m := SetField(m, fs[2].tag, fs[2].value);
    FoldStep(m, fs, 3);
    m := SetField(m, fs[3].tag, fs[3].value);
    FoldStep(m, fs, 4);
    m := SetField(m, fs[4].tag, fs[4].value);
    FoldStep(m, fs, 5);
    m := SetField(m, fs[5].tag, fs[5].value);
    FoldStep(m, fs, 6);
  }

  predicate AllSendable(ms: seq<FixMessage>) {
    forall i :: 0 <= i < |ms| ==> Sendable(ms[i])
  }

  function FieldLists(ms: seq<FixMessage>): (fs: seq<seq<Field>>)
    requires AllSendable(ms)
    ensures |fs| == |ms| && forall i :: 0 <= i < |fs| ==> fs[i] == FieldsOf(ms[i])
  {
    seq(|ms|, i requires 0 <= i < |ms| => FieldsOf(ms[i]))
  }

  lemma {:induction false} FoldedIsSent(ms: seq<FixMessage>)
    requires AllSendable(ms)
    ensures Folded(FieldLists(ms)) == ms
    decreases |ms|
  {
    if ms != [] {
      assert FieldLists(ms)[1..] == FieldLists(ms[1..]);
      FieldsRoundTrip(ms[0]);
      FoldedIsSent(ms[1..]);
    }
  }

  /** No id holds "10=". */
  predicate IdsHoldNoTrailer(ms: seq<FixMessage>) {
    forall i :: 0 <= i < |ms| ==> NoTrailerIn(ms[i].clOrdID) && NoTrailerIn(ms[i].origClOrdID)
  }

  /** The wire end to end: any list of messages, printed as one stream and read in any chunks,
      arrives as the same list if and only if no id holds "10=". */
  lemma WireRoundTripIff(ms: seq<FixMessage>, chunks: seq<string>)
    requires AllSendable(ms) && Join(chunks) == PrintStream(FieldLists(ms))
    ensures Messages(Feed("", chunks).frames) == ms <==> IdsHoldNoTrailer(ms)
    ensures Feed("", chunks).leftover == ""
  {
    hide FrameEnd, Frames, Feed, Join, Messages, PrintStream, Clean, Printable, NoTrailerIn, FieldsOf;
    var fs := FieldLists(ms);
    forall i | 0 <= i < |ms|
      ensures Printable(fs[i])
      ensures Clean(fs[i]) <==> NoTrailerIn(ms[i].clOrdID) && NoTrailerIn(ms[i].origClOrdID)
    {
      FieldsCleanIff(ms[i]);
    }
    StreamRoundTripIff(fs);
    FoldedIsSent(ms);
    NoFrameInNothing();
    ChunkIndependence("", chunks);
    assert "" + Join(chunks) == Join(chunks);
  }
}

/** The text of the lines that mish2jsonl prints, and what a JSON reader makes of it. */
module JsonDocument {
  import opened Common
  import opened Cohorts
  import opened Hex
  import opened JsonEscape
  import opened JsonLines
  import opened JsonText

  // ----- the text of a line -----

  function ResultText(o: LineOutput, tail: seq<byte>): seq<byte> {
    Field("result", Quoted(o.result, [SPACE, CLOSE_OBJECT] + tail))
  }

  function LenText(o: LineOutput, rest: seq<byte>): seq<byte> {
    Field("len", Decimal(o.len) + ([COMMA, SPACE] + rest))
  }

  function WorkerSoText(o: LineOutput, rest: seq<byte>): seq<byte> {
    Field("worker_so", Quoted(o.workerSo, [COMMA] + rest))
  }

  function WorkernoText(workerno: nat, rest: seq<byte>): seq<byte> {
    Field("workerno", Decimal(workerno) + ([COMMA, SPACE] + rest))
  }

  function NdecodedText(o: LineOutput, rest: seq<byte>): seq<byte> {
    Field("ndecoded", Decimal(o.ndecoded) + ([COMMA, SPACE] + rest))
  }

  function NameText(o: LineOutput, rest: seq<byte>): seq<byte> {
    Field("name", Quoted(Ascii(o.name), [SPACE, CLOSE_OBJECT] + rest))
  }

  function StatusText(o: LineOutput, rest: seq<byte>): seq<byte> {
    Field("status", [OPEN_OBJECT, SPACE] + Field("value", Decimal(o.status) + ([COMMA, SPACE] + NameText(o, rest))))
  }

  /** The `fprintf` for one worker.  `workerno` is a field that nothing ever sets. */
  function OutputText(o: LineOutput, workerno: nat, tail: seq<byte>): seq<byte> {
    var names := WorkerSoText(o, LenText(o, ResultText(o, tail)));
    [OPEN_OBJECT, SPACE] + StatusText(o, [COMMA, SPACE] + NdecodedText(o, WorkernoText(workerno, names)))
  }

  /** `n` items from number `i` on, with commas between them; `text(k, rest)` is item `k` and the rest behind it. */
  function ItemsText(text: (nat, seq<byte>) -> seq<byte>, n: nat, i: nat, tail: seq<byte>): seq<byte>
    requires i < n
    decreases n - i
  {
    text(i, if i + 1 == n then tail else [COMMA] + ItemsText(text, n, i + 1, tail))
  }

  function OutputTexts(outputs: seq<LineOutput>, workernos: seq<nat>): (nat, seq<byte>) -> seq<byte>
    requires |workernos| == |outputs|
  {
    (i: nat, rest) => if i < |outputs| then OutputText(outputs[i], workernos[i], rest) else rest
  }

  function HeadText(line: Line, rest: seq<byte>): seq<byte> {
    [OPEN_OBJECT, SPACE] +
    Field("nworkers", Decimal(line.nworkers) + ([COMMA, SPACE] +
          Field("input", Quoted(line.input, [COMMA, SPACE] + Field("outputs", [OPEN_ARRAY] + rest)))))
  }

  function LineText(line: Line, workernos: seq<nat>): seq<byte>
    requires |workernos| == |line.outputs|
  {
    var tail := [CLOSE_ARRAY, CLOSE_OBJECT];
    HeadText(line, if line.outputs == [] then tail
                   else ItemsText(OutputTexts(line.outputs, workernos), |line.outputs|, 0, tail))
  }

  predicate PlainWord(s: string) {
    forall i :: 0 <= i < |s| ==> '_' <= s[i] <= 'z'
  }

  lemma WordPlain(s: string)
    requires PlainWord(s)
    ensures Plain(Ascii(s))
  {
  }

  /** The keys and the names of the statuses need no escaping. */
  lemma HeadKeysPlain()
    ensures Plain(Ascii("nworkers")) && Plain(Ascii("input")) && Plain(Ascii("outputs"))
  {
    WordPlain("nworkers");
    WordPlain("input");
    WordPlain("outputs");
  }

  lemma OutputKeysPlain()
    ensures Plain(Ascii("status")) && Plain(Ascii("ndecoded")) && Plain(Ascii("workerno"))
    ensures Plain(Ascii("worker_so")) && Plain(Ascii("len")) && Plain(Ascii("result"))
  {
    WordPlain("status");
    WordPlain("ndecoded");
    WordPlain("workerno");
    WordPlain("worker_so");
    WordPlain("len");
    WordPlain("result");
  }

  lemma StatusKeysPlain()
    ensures Plain(Ascii("value")) && Plain(Ascii("name"))
  {
    WordPlain("value");
    WordPlain("name");
  }

  // ----- what any such reader makes of one output -----

  /** Behind a value there is a comma, perhaps a space, and more members. */
  lemma MoreMembers(r: Reader, key: string, rest: seq<byte>, value: Json, more: seq<byte>)
    requires Lawful(r) && Plain(Ascii(key)) && r.value([SPACE] + rest) == Got(value, [COMMA] + more)
    ensures r.members(Field(key, rest)) == r.members([SPACE] + Field(key, rest)) == Prepend(M(key, value), r.members(more))
  {
    assert MemberLaw(r, key, rest, more);
  }

  lemma LastMember(r: Reader, key: string, rest: seq<byte>, value: Json, tail: seq<byte>)
    requires Lawful(r) && Plain(Ascii(key)) && r.value([SPACE] + rest) == Got(value, [SPACE, CLOSE_OBJECT] + tail)
    ensures r.members(Field(key, rest)) == r.members([SPACE] + Field(key, rest)) == Got([M(key, value)], tail)
  {
    assert MemberLaw(r, key, rest, tail);
  }

  lemma NumberMember(r: Reader, key: string, n: nat, text: seq<byte>)
    requires Lawful(r) && Plain(Ascii(key))
    ensures var field := Field(key, Decimal(n) + ([COMMA, SPACE] + text));
            r.members(field) == r.members([SPACE] + field) == Prepend(M(key, Num(n)), r.members([SPACE] + text))
  {
    var rest := [COMMA, SPACE] + text;
    assert NumberLaw(r, n, rest);
    assert rest == [COMMA] + ([SPACE] + text);
    MoreMembers(r, key, Decimal(n) + rest, Num(n), [SPACE] + text);
  }

  lemma EscapedLast(r: Reader, key: string, s: seq<byte>, tail: seq<byte>)
    requires Lawful(r) && Plain(Ascii(key))
    ensures r.members([SPACE] + Field(key, Quoted(Escape(s), [SPACE, CLOSE_OBJECT] + tail))) == Got([M(key, Str(s))], tail)
  {
    var rest := [SPACE, CLOSE_OBJECT] + tail;
    assert EscapeLaw(r, s, rest);
    LastMember(r, key, Quoted(Escape(s), rest), Str(s), tail);
  }

  lemma ResultReads(r: Reader, o: LineOutput, s: seq<byte>, tail: seq<byte>)
    requires Lawful(r) && o.result == Escape(s)
    ensures r.members([SPACE] + ResultText(o, tail)) == Got([M("result", Str(s))], tail)
  {
    OutputKeysPlain();
    EscapedLast(r, "result", s, tail);
  }

  lemma LenReads(r: Reader, o: LineOutput, s: seq<byte>, tail: seq<byte>)
    requires Lawful(r) && o.result == Escape(s)
    ensures r.members(LenText(o, ResultText(o, tail))) == Got([M("len", Num(o.len))] + [M("result", Str(s))], tail)
  {
    OutputKeysPlain();
    NumberMember(r, "len", o.len, ResultText(o, tail));
    ResultReads(r, o, s, tail);
  }

  /** `read` is `members` with `tail` left if the soname, member number `at` of them, is plain; otherwise it is not, because
      of that member. */
  ghost predicate ReadsIfPlain(read: Read<seq<Member>>, so: seq<byte>, members: seq<Member>, at: nat, tail: seq<byte>) {
    && (Plain(so) ==> read == Got(members, tail))
    && (!Plain(so) ==> read.Fail? || (at < |read.value| && read.value[at] != M("worker_so", Str(so))))
  }

  lemma WorkerSoReads(r: Reader, o: LineOutput, rest: seq<byte>, members: seq<Member>, tail: seq<byte>)
    requires Lawful(r) && r.members(rest) == Got(members, tail)
    ensures ReadsIfPlain(r.members([SPACE] + WorkerSoText(o, rest)), o.workerSo, [M("worker_so", Str(o.workerSo))] + members,
                         0, tail)
  {
    OutputKeysPlain();
    assert QuoteLaw(r, o.workerSo, [COMMA] + rest);
    assert MemberLaw(r, "worker_so", Quoted(o.workerSo, [COMMA] + rest), rest);
  }

  /** The members of an output behind its status. */
  function LaterMembers(o: LineOutput, workerno: nat, s: seq<byte>): seq<Member> {
    [M("ndecoded", Num(o.ndecoded))] + ([M("workerno", Num(workerno))] +
    ([M("worker_so", Str(o.workerSo))] + ([M("len", Num(o.len))] + [M("result", Str(s))])))
  }

  lemma OneMoreInFront(first: Member, read: Read<seq<Member>>, so: seq<byte>, members: seq<Member>, at: nat, tail: seq<byte>)
    requires ReadsIfPlain(read, so, members, at, tail)
    ensures ReadsIfPlain(Prepend(first, read), so, [first] + members, at + 1, tail)
  {
  }

  lemma NdecodedReads(r: Reader, o: LineOutput, workerno: nat, s: seq<byte>, names: seq<byte>, tail: seq<byte>)
    requires Lawful(r) && o.result == Escape(s) && names == WorkerSoText(o, LenText(o, ResultText(o, tail)))
    ensures ReadsIfPlain(r.members([SPACE] + NdecodedText(o, WorkernoText(workerno, names))), o.workerSo,
                         LaterMembers(o, workerno, s), 2, tail)
  {
    LenReads(r, o, s, tail);
    WorkerSoReads(r, o, LenText(o, ResultText(o, tail)), [M("len", Num(o.len))] + [M("result", Str(s))], tail);
    NumbersInFront(r, o, workerno, names,
                   [M("worker_so", Str(o.workerSo))] + ([M("len", Num(o.len))] + [M("result", Str(s))]), tail);
  }

  lemma NumbersInFront(r: Reader, o: LineOutput, workerno: nat, names: seq<byte>, members: seq<Member>, tail: seq<byte>)
    requires Lawful(r) && ReadsIfPlain(r.members([SPACE] + names), o.workerSo, members, 0, tail)
    ensures ReadsIfPlain(r.members([SPACE] + NdecodedText(o, WorkernoText(workerno, names))), o.workerSo,
                         [M("ndecoded", Num(o.ndecoded))] + ([M("workerno", Num(workerno))] + members), 2, tail)
  {
    OutputKeysPlain();
    var read := r.members([SPACE] + names);
    NumberMember(r, "workerno", workerno, names);
    NumberMember(r, "ndecoded", o.ndecoded, WorkernoText(workerno, names));
    OneMoreInFront(M("workerno", Num(workerno)), read, o.workerSo, members, 0, tail);
    OneMoreInFront(M("ndecoded", Num(o.ndecoded)), Prepend(M("workerno", Num(workerno)), read), o.workerSo,
                   [M("workerno", Num(workerno))] + members, 1, tail);
  }

  function StatusJson(status: nat, name: string): Json {
    Obj([M("value", Num(status))] + [M("name", Str(Ascii(name)))])
  }

  lemma StatusReads(r: Reader, o: LineOutput, rest: seq<byte>)
    requires Lawful(r) && Plain(Ascii(o.name))
    ensures r.value([SPACE] + ([OPEN_OBJECT, SPACE] + Field("value", Decimal(o.status) + ([COMMA, SPACE] + NameText(o, rest)))))
         == Got(StatusJson(o.status, o.name), rest)
  {
    StatusKeysPlain();
    var close := [SPACE, CLOSE_OBJECT] + rest;
    assert QuoteLaw(r, Ascii(o.name), close);
    LastMember(r, "name", Quoted(Ascii(o.name), close), Str(Ascii(o.name)), rest);
    NumberMember(r, "value", o.status, NameText(o, rest));
    assert ObjectLaw(r, "value", Decimal(o.status) + ([COMMA, SPACE] + NameText(o, rest)));
  }

  /** The members as an object. */
  function AsObject(read: Read<seq<Member>>): Read<Json> {
    match read
    case Fail => Fail
    case Got(members, after) => Got(Obj(members), after)
  }

  lemma ObjectIfPlain(read: Read<seq<Member>>, so: seq<byte>, members: seq<Member>, at: nat, tail: seq<byte>)
    requires ReadsIfPlain(read, so, members, at, tail) && at < |members| && members[at] == M("worker_so", Str(so))
    ensures Plain(so) ==> AsObject(read) == Got(Obj(members), tail)
    ensures !Plain(so) ==> AsObject(read).Fail? || AsObject(read).value != Obj(members)
  {
  }

  lemma StatusMember(r: Reader, o: LineOutput, later: seq<byte>)
    requires Lawful(r) && Plain(Ascii(o.name))
    ensures r.value([OPEN_OBJECT, SPACE] + StatusText(o, [COMMA, SPACE] + later)) ==
            AsObject(Prepend(M("status", StatusJson(o.status, o.name)), r.members([SPACE] + later)))
  {
    OutputKeysPlain();
    var rest := [COMMA, SPACE] + later;
    var status := [OPEN_OBJECT, SPACE] + Field("value", Decimal(o.status) + ([COMMA, SPACE] + NameText(o, rest)));
    StatusReads(r, o, rest);
    assert rest == [COMMA] + ([SPACE] + later);
    MoreMembers(r, "status", status, StatusJson(o.status, o.name), [SPACE] + later);
    assert ObjectLaw(r, "status", status);
  }

  lemma OutputReads(r: Reader, o: LineOutput, workerno: nat, s: seq<byte>, tail: seq<byte>)
    requires Lawful(r) && o.result == Escape(s) && Plain(Ascii(o.name))
    ensures var read := r.value(OutputText(o, workerno, tail));
            var json := Obj([M("status", StatusJson(o.status, o.name))] + LaterMembers(o, workerno, s));
            && (Plain(o.workerSo) ==> read == Got(json, tail))
            && (!Plain(o.workerSo) ==> read.Fail? || read.value != json)
  {
    var status := M("status", StatusJson(o.status, o.name));
    var names := WorkerSoText(o, LenText(o, ResultText(o, tail)));
    var later := NdecodedText(o, WorkernoText(workerno, names));
    StatusMember(r, o, later);
    NdecodedReads(r, o, workerno, s, names, tail);
    OneMoreInFront(status, r.members([SPACE] + later), o.workerSo, LaterMembers(o, workerno, s), 2, tail);
    ObjectIfPlain(Prepend(status, r.members([SPACE] + later)), o.workerSo, [status] + LaterMembers(o, workerno, s), 3, tail);
  }

  // ----- and of a whole line -----

  /** One output as it should look in the document. */
  function OutputJson(o: WorkerOutput, workerno: nat): Json {
    Obj([M("status", StatusJson(o.status, StatusName(o.status))), M("ndecoded", Num(o.ndecoded)),
         M("workerno", Num(workerno)), M("worker_so", Str(CString(o.workerso))), M("len", Num(|o.result|)),
         M("result", Str(CString(o.result)))])
  }

  function OutputsJson(outputs: seq<WorkerOutput>, workernos: seq<nat>): (r: seq<Json>)
    requires |workernos| == |outputs|
    ensures |r| == |outputs| && forall i :: 0 <= i < |r| ==> r[i] == OutputJson(outputs[i], workernos[i])
  {
    seq(|outputs|, i requires 0 <= i < |outputs| => OutputJson(outputs[i], workernos[i]))
  }

  /** A cohort as it should look in the document: its input in hexadecimal, its texts up to their first NUL. */
  function LineJson(c: Cohort, workernos: seq<nat>): Json
    requires |workernos| == |c.outputs|
  {
    Obj([M("nworkers", Num(c.nworkers)), M("input", Str(HexText(CountedBytes(c.input)))),
         M("outputs", Arr(OutputsJson(c.outputs, workernos)))])
  }

  /** No soname needs escaping. */
  predicate PlainNames(outputs: seq<WorkerOutput>) {
    forall j :: 0 <= j < |outputs| ==> Plain(CString(outputs[j].workerso))
  }

  lemma NamesPlain(status: nat)
    ensures Plain(Ascii(StatusName(status)))
  {
    WordPlain(StatusName(status));
  }

  lemma LineOutputReads(r: Reader, o: WorkerOutput, workerno: nat, tail: seq<byte>)
    requires Lawful(r)
    ensures var read := r.value(OutputText(LineOutputOf(o), workerno, tail));
            && (Plain(CString(o.workerso)) ==> read == Got(OutputJson(o, workerno), tail))
            && (!Plain(CString(o.workerso)) ==> read.Fail? || read.value != OutputJson(o, workerno))
  {
    NamesPlain(o.status);
    OutputReads(r, LineOutputOf(o), workerno, CString(o.result), tail);
    var lo := LineOutputOf(o);
    assert [M("status", StatusJson(lo.status, lo.name))] + LaterMembers(lo, workerno, CString(o.result))
        == OutputJson(o, workerno).members;
  }

  /** `read` gives `json` with `tail` left if `plain`, and otherwise not. */
  ghost predicate GivesIf<T(!new)>(plain: bool, read: Read<T>, json: T, tail: seq<byte>) {
    (plain ==> read == Got(json, tail)) && (!plain ==> read.Fail? || read.value != json)
  }

  /** From one item and the others to all of them. */
  lemma ItemThenOthers(item: Read<Json>, json: Json, after: seq<byte>, first: bool,
                       others: Read<seq<Json>>, jsons: seq<Json>, tail: seq<byte>, later: bool, read: Read<seq<Json>>)
    requires GivesIf(first, item, json, after) && GivesIf(later, others, jsons, tail)
    requires read.Got? ==> item.Got? && read.value != [] && read.value[0] == item.value
    requires item.Got? && item.rest == after ==> read == Prepend(item.value, others)
    ensures GivesIf(first && later, read, [json] + jsons, tail)
  {
    if first && !later && read.Got? {
      assert read.value[1..] == others.value && ([json] + jsons)[1..] == jsons;
    }
  }

  /** Every text is read as its value, with the rest left, exactly if it is one of the good ones. */
  ghost predicate Reads(r: Reader, text: (nat, seq<byte>) -> seq<byte>, jsons: seq<Json>, good: nat -> bool) {
    forall k: nat, rest :: k < |jsons| ==> GivesIf(good(k), r.value(text(k, rest)), jsons[k], rest)
  }

  ghost predicate GoodFrom(good: nat -> bool, i: nat, n: nat) {
    forall k: nat :: i <= k < n ==> good(k)
  }

  lemma {:induction false} ItemsRead(r: Reader, text: (nat, seq<byte>) -> seq<byte>, jsons: seq<Json>, good: nat -> bool,
                                     i: nat, tail: seq<byte>)
    requires Lawful(r) && Reads(r, text, jsons, good) && i < |jsons|
    ensures GivesIf(GoodFrom(good, i, |jsons|), r.items(ItemsText(text, |jsons|, i, [CLOSE_ARRAY] + tail)), jsons[i..], tail)
    decreases |jsons| - i
  {
    var n := |jsons|;
    assert jsons[i..] == [jsons[i]] + jsons[i + 1..];
    if i + 1 == n {
      var b := text(i, [CLOSE_ARRAY] + tail);
      assert ItemLaw(r, b, tail);
      assert r.value(b).Got? ==> [r.value(b).value] + [] == [r.value(b).value];
      ItemThenOthers(r.value(b), jsons[i], [CLOSE_ARRAY] + tail, good(i), Got([], tail), [], tail, true, r.items(b));
    } else {
      var more := ItemsText(text, n, i + 1, [CLOSE_ARRAY] + tail);
      var b := text(i, [COMMA] + more);
      assert ItemLaw(r, b, more);
      ItemsRead(r, text, jsons, good, i + 1, tail);
      ItemThenOthers(r.value(b), jsons[i], [COMMA] + more, good(i), r.items(more), jsons[i + 1..], tail,
                     GoodFrom(good, i + 1, n), r.items(b));
    }
  }

  /** Whether the soname of output `k` is plain. */
  ghost function PlainAt(outputs: seq<WorkerOutput>): nat -> bool {
    (k: nat) => k < |outputs| ==> Plain(CString(outputs[k].workerso))
  }

  lemma OutputTextsRead(r: Reader, outputs: seq<WorkerOutput>, workernos: seq<nat>)
    requires Lawful(r) && |workernos| == |outputs|
    ensures Reads(r, OutputTexts(LineOutputsOf(outputs), workernos), OutputsJson(outputs, workernos), PlainAt(outputs))
    ensures GoodFrom(PlainAt(outputs), 0, |outputs|) <==> PlainNames(outputs)
  {
    var text, jsons := OutputTexts(LineOutputsOf(outputs), workernos), OutputsJson(outputs, workernos);
    forall k: nat, rest | k < |jsons|
      ensures GivesIf(PlainAt(outputs)(k), r.value(text(k, rest)), jsons[k], rest)
    {
      LineOutputReads(r, outputs[k], workernos[k], rest);
    }
    forall j | 0 <= j < |outputs|
      ensures PlainAt(outputs)(j) <==> Plain(CString(outputs[j].workerso))
    {
    }
  }

  lemma HexPlain(bytes: seq<byte>)
    ensures Plain(HexText(bytes))
  {
    forall j | 0 <= j < |HexText(bytes)|
      ensures HexText(bytes)[j] >= 0x20 && HexText(bytes)[j] != QUOTE && HexText(bytes)[j] != BACKSLASH
    {
      HexTextAt(bytes, j / 2);
      NibbleOfDigit(bytes[j / 2] / 16);
      NibbleOfDigit(bytes[j / 2] % 16);
    }
  }

  lemma EmptyArrayReads(r: Reader, tail: seq<byte>)
    requires Lawful(r)
    ensures r.value([SPACE] + ([OPEN_ARRAY] + ([CLOSE_ARRAY] + tail))) == Got(Arr([]), tail)
  {
    assert ArrayLaw(r, tail);
  }

  lemma ArrayReads(r: Reader, rest: seq<byte>, jsons: seq<Json>, all: bool, tail: seq<byte>)
    requires Lawful(r) && rest != [] && rest[0] == OPEN_OBJECT && GivesIf(all, r.items(rest), jsons, tail)
    ensures GivesIf(all, r.value([SPACE] + ([OPEN_ARRAY] + rest)), Arr(jsons), tail)
  {
    assert ArrayLaw(r, rest);
  }

  lemma ItemsOpen(outputs: seq<LineOutput>, workernos: seq<nat>, tail: seq<byte>)
    requires |workernos| == |outputs| > 0
    ensures var rest := ItemsText(OutputTexts(outputs, workernos), |outputs|, 0, tail);
            rest != [] && rest[0] == OPEN_OBJECT
  {
  }

  lemma OutputsRead(r: Reader, outputs: seq<WorkerOutput>, workernos: seq<nat>, rest: seq<byte>, tail: seq<byte>)
    requires Lawful(r) && |workernos| == |outputs|
    requires var text := OutputTexts(LineOutputsOf(outputs), workernos);
             rest == if outputs == [] then [CLOSE_ARRAY] + tail else ItemsText(text, |outputs|, 0, [CLOSE_ARRAY] + tail)
    ensures GivesIf(PlainNames(outputs), r.value([SPACE] + ([OPEN_ARRAY] + rest)), Arr(OutputsJson(outputs, workernos)), tail)
  {
    if outputs == [] {
      EmptyArrayReads(r, tail);
      assert OutputsJson(outputs, workernos) == [];
    } else {
      var jsons := OutputsJson(outputs, workernos);
      OutputTextsRead(r, outputs, workernos);
      ItemsRead(r, OutputTexts(LineOutputsOf(outputs), workernos), jsons, PlainAt(outputs), 0, tail);
      assert jsons[0..] == jsons;
      ItemsOpen(LineOutputsOf(outputs), workernos, [CLOSE_ARRAY] + tail);
      ArrayReads(r, rest, jsons, PlainNames(outputs), tail);
    }
  }

  lemma InFront(first: Member, good: bool, read: Read<seq<Member>>, members: seq<Member>, tail: seq<byte>)
    requires GivesIf(good, read, members, tail)
    ensures GivesIf(good, Prepend(first, read), [first] + members, tail)
  {
    if read.Got? && read.value != members {
      assert ([first] + read.value)[1..] == read.value && ([first] + members)[1..] == members;
    }
  }

  lemma ObjectGives(good: bool, read: Read<seq<Member>>, members: seq<Member>, tail: seq<byte>)
    requires GivesIf(good, read, members, tail)
    ensures GivesIf(good, AsObject(read), Obj(members), tail)
  {
  }

  /** The member with the outputs, the last. */
  lemma OutputsMember(r: Reader, rest: seq<byte>, outputs: Json, good: bool)
    requires Lawful(r) && GivesIf(good, r.value([SPACE] + rest), outputs, [CLOSE_OBJECT])
    ensures GivesIf(good, r.members([SPACE] + Field("outputs", rest)), [M("outputs", outputs)], [])
  {
    HeadKeysPlain();
    assert MemberLaw(r, "outputs", rest, []);
    assert [CLOSE_OBJECT] + [] == [CLOSE_OBJECT];
  }

  lemma InputMember(r: Reader, input: seq<byte>, more: seq<byte>)
    requires Lawful(r) && Plain(input)
    ensures r.members([SPACE] + Field("input", Quoted(input, [COMMA, SPACE] + more)))
         == Prepend(M("input", Str(input)), r.members([SPACE] + more))
  {
    HeadKeysPlain();
    var rest := [COMMA, SPACE] + more;
    assert rest == [COMMA] + ([SPACE] + more);
    assert QuoteLaw(r, input, rest);
    MoreMembers(r, "input", Quoted(input, rest), Str(input), [SPACE] + more);
  }

  lemma HeadMembers(r: Reader, line: Line, rest: seq<byte>)
    requires Lawful(r) && Plain(line.input)
    ensures r.value(HeadText(line, rest)) ==
            AsObject(Prepend(M("nworkers", Num(line.nworkers)),
                             Prepend(M("input", Str(line.input)), r.members([SPACE] + Field("outputs", [OPEN_ARRAY] + rest)))))
  {
    HeadKeysPlain();
    var field := Field("outputs", [OPEN_ARRAY] + rest);
    var input := Field("input", Quoted(line.input, [COMMA, SPACE] + field));
    InputMember(r, line.input, field);
    NumberMember(r, "nworkers", line.nworkers, input);
    assert ObjectLaw(r, "nworkers", Decimal(line.nworkers) + ([COMMA, SPACE] + input));
  }

  /** The object around it. */
  lemma HeadReads(r: Reader, line: Line, rest: seq<byte>, outputs: Json, good: bool)
    requires Lawful(r) && Plain(line.input)
    requires GivesIf(good, r.value([SPACE] + ([OPEN_ARRAY] + rest)), outputs, [CLOSE_OBJECT])
    ensures GivesIf(good, r.value(HeadText(line, rest)),
                    Obj([M("nworkers", Num(line.nworkers))] + ([M("input", Str(line.input))] + [M("outputs", outputs)])), [])
  {
    var read := r.members([SPACE] + Field("outputs", [OPEN_ARRAY] + rest));
    var input, nworkers := M("input", Str(line.input)), M("nworkers", Num(line.nworkers));
    OutputsMember(r, [OPEN_ARRAY] + rest, outputs, good);
    HeadMembers(r, line, rest);
    InFront(input, good, read, [M("outputs", outputs)], []);
    InFront(nworkers, good, Prepend(input, read), [input] + [M("outputs", outputs)], []);
    ObjectGives(good, Prepend(nworkers, Prepend(input, read)), [nworkers] + ([input] + [M("outputs", outputs)]), []);
  }

  /** Any lawful reader makes of a printed line the cohort it was printed for, whatever the heap left in the worker numbers,
      if and only if no soname needs escaping. */
  lemma LineReadsBack(r: Reader, c: Cohort, workernos: seq<nat>)
    requires Lawful(r) && |workernos| == |c.outputs|
    ensures GivesIf(PlainNames(c.outputs), r.value(LineText(LineOf(c), workernos)), LineJson(c, workernos), [])
  {
    LineReadsAs(r, c, workernos, LineOf(c), Arr(OutputsJson(c.outputs, workernos)));
  }

  lemma LineReadsAs(r: Reader, c: Cohort, workernos: seq<nat>, line: Line, outputs: Json)
    requires Lawful(r) && |workernos| == |c.outputs| && line == LineOf(c)
    requires outputs == Arr(OutputsJson(c.outputs, workernos))
    ensures GivesIf(PlainNames(c.outputs), r.value(LineText(line, workernos)), LineJson(c, workernos), [])
  {
    HexPlain(CountedBytes(c.input));
    assert [CLOSE_ARRAY] + [CLOSE_OBJECT] == [CLOSE_ARRAY, CLOSE_OBJECT];
    var rest := if line.outputs == [] then [CLOSE_ARRAY, CLOSE_OBJECT]
                else ItemsText(OutputTexts(line.outputs, workernos), |line.outputs|, 0, [CLOSE_ARRAY, CLOSE_OBJECT]);
    OutputsRead(r, c.outputs, workernos, rest, [CLOSE_OBJECT]);
    HeadReads(r, line, rest, outputs, PlainNames(c.outputs));
    LineMembers(c, workernos, line.input, outputs);
  }

  lemma LineMembers(c: Cohort, workernos: seq<nat>, input: seq<byte>, outputs: Json)
    requires |workernos| == |c.outputs| && input == HexText(CountedBytes(c.input))
    requires outputs == Arr(OutputsJson(c.outputs, workernos))
    ensures [M("nworkers", Num(c.nworkers))] + ([M("input", Str(input))] + [M("outputs", outputs)])
         == LineJson(c, workernos).members
  {
  }

  // ----- what the members are, by name -----

  lemma {:induction false} FindAt(members: seq<Member>, i: nat)
    requires i < |members| && forall j :: 0 <= j < i ==> members[j].key != members[i].key
    ensures Find(members, members[i].key) == Some(members[i].value)
  {
    if i > 0 {
      FindAt(members[1..], i - 1);
    }
  }

  /** Different keys: they differ in length or in their first byte. */
  lemma KeysApart()
    ensures |Ascii("status")| == 6 && |Ascii("ndecoded")| == 8 && |Ascii("workerno")| == 8 && |Ascii("worker_so")| == 9
    ensures |Ascii("len")| == 3 && |Ascii("result")| == 6 && |Ascii("value")| == 5 && |Ascii("name")| == 4
    ensures |Ascii("nworkers")| == 8 && |Ascii("input")| == 5 && |Ascii("outputs")| == 7
    ensures Ascii("status")[0] != Ascii("result")[0] && Ascii("ndecoded")[0] != Ascii("workerno")[0]
  {
  }

  /** What a pass finds in an output object under the names of its members: the status by number and name, the length,
      and the texts up to their first NUL with the length of the whole text. */
  ghost predicate ShowsOutput(json: Json, o: WorkerOutput) {
    && Get(json, "status").Some? && Get(Get(json, "status").value, "value") == Some(Num(o.status))
    && Get(Get(json, "status").value, "name") == Some(Str(Ascii(StatusName(o.status))))
    && Get(json, "ndecoded") == Some(Num(o.ndecoded)) && Get(json, "len") == Some(Num(|o.result|))
    && Get(json, "worker_so") == Some(Str(CString(o.workerso)))
    && Get(json, "result") == Some(Str(CString(o.result)))
  }

  /** And in the whole document: the number of workers, the bytes of the input that count, and the outputs. */
  ghost predicate Shows(json: Json, c: Cohort) {
    && Get(json, "nworkers") == Some(Num(c.nworkers))
    && (exists text :: Get(json, "input") == Some(Str(text)) && ParseHex(text) == CountedBytes(c.input))
    && Get(json, "outputs").Some? && Get(json, "outputs").value.Arr?
    && var items := Get(json, "outputs").value.items;
       |items| == |c.outputs| && forall i :: 0 <= i < |items| ==> ShowsOutput(items[i], c.outputs[i])
  }

  lemma OutputFields(o: WorkerOutput, workerno: nat)
    ensures ShowsOutput(OutputJson(o, workerno), o)
  {
    KeysApart();
    var members := OutputJson(o, workerno).members;
    FindAt(members, 0);
    FindAt(members, 1);
    FindAt(members, 3);
    FindAt(members, 4);
    FindAt(members, 5);
    var status := StatusJson(o.status, StatusName(o.status)).members;
    FindAt(status, 0);
    FindAt(status, 1);
  }

  lemma LineFields(c: Cohort, workernos: seq<nat>)
    requires |workernos| == |c.outputs|
    ensures Shows(LineJson(c, workernos), c)
  {
    KeysApart();
    var members := LineJson(c, workernos).members;
    FindAt(members, 0);
    FindAt(members, 1);
    FindAt(members, 2);
    ParsePrinted(CountedBytes(c.input));
    forall i | 0 <= i < |c.outputs|
      ensures ShowsOutput(OutputsJson(c.outputs, workernos)[i], c.outputs[i])
    {
      OutputFields(c.outputs[i], workernos[i]);
    }
  }

  /** The line printed for a cohort reads back as a document that shows the cohort, if and only if no soname needs escaping;
      whatever the heap left in the worker numbers. */
  lemma PrintedLine(c: Cohort, workernos: seq<nat>)
    requires |workernos| == |c.outputs|
    ensures ReadJson(LineText(LineOf(c), workernos)) == Some(LineJson(c, workernos)) <==> PlainNames(c.outputs)
    ensures Shows(LineJson(c, workernos), c)
  {
    Rfc7159Lawful();
    LineReadsBack(Rfc7159(), c, workernos);
    WholeText(PlainNames(c.outputs), LineText(LineOf(c), workernos), LineJson(c, workernos));
    LineFields(c, workernos);
  }

  lemma WholeText(good: bool, text: seq<byte>, json: Json)
    requires GivesIf(good, Rfc7159().value(text), json, [])
    ensures ReadJson(text) == Some(json) <==> good
  {
  }

  // ----- printing -----

  lemma FieldTail(key: string, rest: seq<byte>, tail: seq<byte>)
    ensures Field(key, rest) + tail == Field(key, rest + tail)
  {
    var behind := [QUOTE, COLON, SPACE];
    Associate([QUOTE], Ascii(key) + (behind + rest), tail);
    Associate(Ascii(key), behind + rest, tail);
    Associate(behind, rest, tail);
  }

  lemma QuotedTail(text: seq<byte>, rest: seq<byte>, tail: seq<byte>)
    ensures Quoted(text, rest) + tail == Quoted(text, rest + tail)
  {
    Associate([QUOTE], text + ([QUOTE] + rest), tail);
    Associate(text, [QUOTE] + rest, tail);
    Associate([QUOTE], rest, tail);
  }

  lemma NumberTail(key: string, n: nat, rest: seq<byte>, tail: seq<byte>)
    ensures Field(key, Decimal(n) + ([COMMA, SPACE] + rest)) + tail == Field(key, Decimal(n) + ([COMMA, SPACE] + (rest + tail)))
  {
    FieldTail(key, Decimal(n) + ([COMMA, SPACE] + rest), tail);
    Associate(Decimal(n), [COMMA, SPACE] + rest, tail);
    Associate([COMMA, SPACE], rest, tail);
  }

  lemma StatusTail(o: LineOutput, rest: seq<byte>, tail: seq<byte>)
    ensures StatusText(o, rest) + tail == StatusText(o, rest + tail)
  {
    var close := [SPACE, CLOSE_OBJECT];
    var value := Field("value", Decimal(o.status) + ([COMMA, SPACE] + NameText(o, rest)));
    FieldTail("status", [OPEN_OBJECT, SPACE] + value, tail);
    Associate([OPEN_OBJECT, SPACE], value, tail);
    NumberTail("value", o.status, NameText(o, rest), tail);
    FieldTail("name", Quoted(Ascii(o.name), close + rest), tail);
    QuotedTail(Ascii(o.name), close + rest, tail);
    Associate(close, rest, tail);
  }

  lemma NamesTail(o: LineOutput, tail: seq<byte>)
    ensures WorkerSoText(o, LenText(o, ResultText(o, []))) + tail == WorkerSoText(o, LenText(o, ResultText(o, tail)))
  {
    var len := LenText(o, ResultText(o, []));
    FieldTail("worker_so", Quoted(o.workerSo, [COMMA] + len), tail);
    QuotedTail(o.workerSo, [COMMA] + len, tail);
    Associate([COMMA], len, tail);
    NumberTail("len", o.len, ResultText(o, []), tail);
    FieldTail("result", Quoted(o.result, [SPACE, CLOSE_OBJECT] + []), tail);
    QuotedTail(o.result, [SPACE, CLOSE_OBJECT] + [], tail);
    assert [SPACE, CLOSE_OBJECT] + [] + tail == [SPACE, CLOSE_OBJECT] + tail;
  }

  lemma OutputTail(o: LineOutput, workerno: nat, tail: seq<byte>)
    ensures OutputText(o, workerno, []) + tail == OutputText(o, workerno, tail)
  {
    var names := WorkerSoText(o, LenText(o, ResultText(o, [])));
    var later := NdecodedText(o, WorkernoText(workerno, names));
    NamesTail(o, tail);
    NumberTail("workerno", workerno, names, tail);
    NumberTail("ndecoded", o.ndecoded, WorkernoText(workerno, names), tail);
    Associate([COMMA, SPACE], later, tail);
    StatusTail(o, [COMMA, SPACE] + later, tail);
    Associate([OPEN_OBJECT, SPACE], StatusText(o, [COMMA, SPACE] + later), tail);
  }

  lemma HeadTail(line: Line, tail: seq<byte>)
    ensures HeadText(line, []) + tail == HeadText(line, tail)
  {
    var outputs := Field("outputs", [OPEN_ARRAY] + []);
    var input := Field("input", Quoted(line.input, [COMMA, SPACE] + outputs));
    FieldTail("outputs", [OPEN_ARRAY] + [], tail);
    assert [OPEN_ARRAY] + [] + tail == [OPEN_ARRAY] + tail;
    Associate([COMMA, SPACE], outputs, tail);
    QuotedTail(line.input, [COMMA, SPACE] + outputs, tail);
    FieldTail("input", Quoted(line.input, [COMMA, SPACE] + outputs), tail);
    NumberTail("nworkers", line.nworkers, input, tail);
    Associate([OPEN_OBJECT, SPACE], Field("nworkers", Decimal(line.nworkers) + ([COMMA, SPACE] + input)), tail);
  }

  /** What follows an item can as well be printed after it. */
  ghost predicate Appends(text: (nat, seq<byte>) -> seq<byte>, n: nat) {
    forall i: nat, tail :: i < n ==> text(i, []) + tail == text(i, tail)
  }

  /** What is still to be printed when the loop comes to item `i`. */
  function StillToPrint(text: (nat, seq<byte>) -> seq<byte>, n: nat, i: nat, tail: seq<byte>): seq<byte>
    requires i <= n
  {
    if i == n then tail else (if i != 0 then [COMMA] else []) + ItemsText(text, n, i, tail)
  }

  lemma OnePrinted(text: (nat, seq<byte>) -> seq<byte>, n: nat, i: nat, tail: seq<byte>, before: seq<byte>)
    requires i < n && Appends(text, n)
    ensures before + (if i != 0 then [COMMA] else []) + text(i, []) + StillToPrint(text, n, i + 1, tail)
         == before + StillToPrint(text, n, i, tail)
  {
    var comma, rest := if i != 0 then [COMMA] else [], StillToPrint(text, n, i + 1, tail);
    assert text(i, []) + rest == text(i, rest);
    Associate(before + comma, text(i, []), rest);
    Associate(before, comma, text(i, []) + rest);
  }

  /** The loop over the outputs, with its commas. */
  method PrintItems(text: (nat, seq<byte>) -> seq<byte>, n: nat, head: seq<byte>, tail: seq<byte>)
      returns (printed: seq<byte>)
    requires Appends(text, n)
    ensures printed + tail == head + StillToPrint(text, n, 0, tail)
  {
    printed := head;
    for i := 0 to n
      invariant printed + StillToPrint(text, n, i, tail) == head + StillToPrint(text, n, 0, tail)
    {
      OnePrinted(text, n, i, tail, printed);
      if i != 0 {
        printed := printed + [COMMA];
      } else {
        assert printed + [] == printed;
      }
      printed := printed + text(i, []);
    }
  }

  lemma OutputTextsAt(outputs: seq<LineOutput>, workernos: seq<nat>, i: nat, rest: seq<byte>, text: seq<byte>)
    requires |workernos| == |outputs| && i < |outputs| && text == OutputText(outputs[i], workernos[i], rest)
    ensures OutputTexts(outputs, workernos)(i, rest) == text
  {
  }

  lemma OneAppends(outputs: seq<LineOutput>, workernos: seq<nat>, i: nat, tail: seq<byte>)
    requires |workernos| == |outputs| && i < |outputs|
    ensures OutputTexts(outputs, workernos)(i, []) + tail == OutputTexts(outputs, workernos)(i, tail)
  {
    OutputTail(outputs[i], workernos[i], tail);
    OutputTextsAt(outputs, workernos, i, [], OutputText(outputs[i], workernos[i], []));
    OutputTextsAt(outputs, workernos, i, tail, OutputText(outputs[i], workernos[i], tail));
  }

  lemma OutputTextsAppend(outputs: seq<LineOutput>, workernos: seq<nat>)
    requires |workernos| == |outputs|
    ensures Appends(OutputTexts(outputs, workernos), |outputs|)
  {
    forall i: nat, tail | i < |outputs|
      ensures OutputTexts(outputs, workernos)(i, []) + tail == OutputTexts(outputs, workernos)(i, tail)
    {
      OneAppends(outputs, workernos, i, tail);
    }
  }

  /** The `fprintf`s of `m_cohort_print_json`, for the values of a line. */
  method PrintLine(line: Line, workernos: seq<nat>) returns (printed: seq<byte>)
    requires |workernos| == |line.outputs|
    ensures printed == LineText(line, workernos)
  {
    var tail := [CLOSE_ARRAY, CLOSE_OBJECT];
    var text := OutputTexts(line.outputs, workernos);
    OutputTextsAppend(line.outputs, workernos);
    printed := PrintItems(text, |line.outputs|, HeadText(line, []), tail);
    printed := printed + tail;
    WholeLine(line, workernos);
  }

  lemma WholeLine(line: Line, workernos: seq<nat>)
    requires |workernos| == |line.outputs|
    ensures var still := StillToPrint(OutputTexts(line.outputs, workernos), |line.outputs|, 0, [CLOSE_ARRAY, CLOSE_OBJECT]);
            HeadText(line, []) + still == LineText(line, workernos)
  {
    var still := StillToPrint(OutputTexts(line.outputs, workernos), |line.outputs|, 0, [CLOSE_ARRAY, CLOSE_OBJECT]);
    HeadTail(line, still);
    if line.outputs != [] {
      var items := ItemsText(OutputTexts(line.outputs, workernos), |line.outputs|, 0, [CLOSE_ARRAY, CLOSE_OBJECT]);
      assert [] + items == items;
    }
  }

  // ----- the whole output, line by line -----

  const NEWLINE: byte := 10

  predicate OneLine(b: seq<byte>) {
    NEWLINE !in b
  }

  lemma PlainOneLine(s: seq<byte>)
    requires Plain(s) || forall i :: 0 <= i < |s| ==> s[i] >= 0x20
    ensures OneLine(s)
  {
  }

  lemma FieldOneLine(key: string, rest: seq<byte>)
    requires Plain(Ascii(key)) && OneLine(rest)
    ensures OneLine(Field(key, rest))
  {
    PlainOneLine(Ascii(key));
  }

  lemma NumberOneLine(key: string, n: nat, rest: seq<byte>)
    requires Plain(Ascii(key)) && OneLine(rest)
    ensures OneLine(Field(key, Decimal(n) + ([COMMA, SPACE] + rest)))
  {
    DigitsOf(n);
    assert OneLine(Decimal(n));
    FieldOneLine(key, Decimal(n) + ([COMMA, SPACE] + rest));
  }

  lemma OutputOneLine(o: LineOutput, workerno: nat, tail: seq<byte>)
    requires Plain(Ascii(o.name)) && OneLine(o.workerSo) && OneLine(o.result) && OneLine(tail)
    ensures OneLine(OutputText(o, workerno, tail))
  {
    OutputKeysPlain();
    var len := LenText(o, ResultText(o, tail));
    FieldOneLine("result", Quoted(o.result, [SPACE, CLOSE_OBJECT] + tail));
    NumberOneLine("len", o.len, ResultText(o, tail));
    FieldOneLine("worker_so", Quoted(o.workerSo, [COMMA] + len));
    NumbersOneLine(o, workerno, WorkerSoText(o, len));
  }

  lemma StatusOneLine(o: LineOutput, rest: seq<byte>)
    requires Plain(Ascii(o.name)) && OneLine(rest)
    ensures OneLine(StatusText(o, rest))
  {
    StatusKeysPlain();
    OutputKeysPlain();
    PlainOneLine(Ascii(o.name));
    FieldOneLine("name", Quoted(Ascii(o.name), [SPACE, CLOSE_OBJECT] + rest));
    NumberOneLine("value", o.status, NameText(o, rest));
    FieldOneLine("status", [OPEN_OBJECT, SPACE] + Field("value", Decimal(o.status) + ([COMMA, SPACE] + NameText(o, rest))));
  }

  lemma NumbersOneLine(o: LineOutput, workerno: nat, names: seq<byte>)
    requires Plain(Ascii(o.name)) && OneLine(names)
    ensures OneLine([OPEN_OBJECT, SPACE] + StatusText(o, [COMMA, SPACE] + NdecodedText(o, WorkernoText(workerno, names))))
  {
    OutputKeysPlain();
    NumberOneLine("workerno", workerno, names);
    NumberOneLine("ndecoded", o.ndecoded, WorkernoText(workerno, names));
    StatusOneLine(o, [COMMA, SPACE] + NdecodedText(o, WorkernoText(workerno, names)));
  }

  lemma {:induction false} ItemsOneLine(text: (nat, seq<byte>) -> seq<byte>, n: nat, i: nat, tail: seq<byte>)
    requires i < n && OneLine(tail) && forall k: nat, rest :: k < n && OneLine(rest) ==> OneLine(text(k, rest))
    ensures OneLine(ItemsText(text, n, i, tail))
    decreases n - i
  {
    if i + 1 < n {
      ItemsOneLine(text, n, i + 1, tail);
      assert OneLine([COMMA] + ItemsText(text, n, i + 1, tail));
    }
  }

  lemma OutputsOneLine(c: Cohort, workernos: seq<nat>, tail: seq<byte>)
    requires |workernos| == |c.outputs| > 0 && PlainNames(c.outputs) && OneLine(tail)
    ensures OneLine(ItemsText(OutputTexts(LineOutputsOf(c.outputs), workernos), |c.outputs|, 0, tail))
  {
    var text := OutputTexts(LineOutputsOf(c.outputs), workernos);
    forall k: nat, rest | k < |c.outputs| && OneLine(rest)
      ensures OneLine(text(k, rest))
    {
      var o := c.outputs[k];
      NamesPlain(o.status);
      PlainOneLine(CString(o.workerso));
      EscapedIsPrintable(CString(o.result));
      PlainOneLine(Escape(CString(o.result)));
      OutputOneLine(LineOutputOf(o), workernos[k], rest);
    }
    ItemsOneLine(text, |c.outputs|, 0, tail);
  }

  lemma HeadOneLine(line: Line, rest: seq<byte>)
    requires Plain(line.input) && OneLine(rest)
    ensures OneLine(HeadText(line, rest))
  {
    HeadKeysPlain();
    PlainOneLine(line.input);
    FieldOneLine("outputs", [OPEN_ARRAY] + rest);
    FieldOneLine("input", Quoted(line.input, [COMMA, SPACE] + Field("outputs", [OPEN_ARRAY] + rest)));
    NumberOneLine("nworkers", line.nworkers,
                  Field("input", Quoted(line.input, [COMMA, SPACE] + Field("outputs", [OPEN_ARRAY] + rest))));
  }

  lemma LineOneLine(c: Cohort, workernos: seq<nat>)
    requires |workernos| == |c.outputs| && PlainNames(c.outputs)
    ensures OneLine(LineText(LineOf(c), workernos))
  {
    var tail := [CLOSE_ARRAY, CLOSE_OBJECT];
    HexPlain(CountedBytes(c.input));
    if c.outputs == [] {
      HeadOneLine(LineOf(c), tail);
    } else {
      OutputsOneLine(c, workernos, tail);
      HeadOneLine(LineOf(c), ItemsText(OutputTexts(LineOutputsOf(c.outputs), workernos), |c.outputs|, 0, tail));
    }
  }

  /** What is printed for a stream, a newline behind each line. */
  function FileText(cs: seq<Cohort>, workernos: seq<seq<nat>>): seq<byte>
    requires |workernos| == |cs| && forall i :: 0 <= i < |cs| ==> |workernos[i]| == |cs[i].outputs|
  {
    if cs == [] then []
    else LineText(LineOf(cs[0]), workernos[0]) + ([NEWLINE] + FileText(cs[1..], workernos[1..]))
  }

  function LineEnd(b: seq<byte>): (n: nat)
    ensures n <= |b|
    ensures n < |b| ==> b[n] == NEWLINE
  {
    if b == [] || b[0] == NEWLINE then 0 else 1 + LineEnd(b[1..])
  }

  /** The lines of a file, without their newlines. */
  function SplitLines(b: seq<byte>): seq<seq<byte>>
    decreases |b|
  {
    if b == [] then []
    else [b[..LineEnd(b)]] + if LineEnd(b) < |b| then SplitLines(b[LineEnd(b) + 1..]) else []
  }

  lemma {:induction false} EndOfLine(line: seq<byte>, rest: seq<byte>)
    requires OneLine(line)
    ensures LineEnd(line + ([NEWLINE] + rest)) == |line|
  {
    var b := line + ([NEWLINE] + rest);
    if line == [] {
      assert b == [NEWLINE] + rest;
    } else {
      assert b[1..] == line[1..] + ([NEWLINE] + rest);
      EndOfLine(line[1..], rest);
    }
  }

  lemma SplitFirst(line: seq<byte>, rest: seq<byte>)
    requires OneLine(line)
    ensures SplitLines(line + ([NEWLINE] + rest)) == [line] + SplitLines(rest)
  {
    var b := line + ([NEWLINE] + rest);
    EndOfLine(line, rest);
    assert b[..|line|] == line && b[|line| + 1..] == rest;
  }

  ghost predicate ReadsAs(line: seq<byte>, c: Cohort) {
    ReadJson(line).Some? && Shows(ReadJson(line).value, c)
  }

  ghost predicate ReadAs(lines: seq<seq<byte>>, cs: seq<Cohort>) {
    |lines| == |cs| && forall i :: 0 <= i < |cs| ==> ReadsAs(lines[i], cs[i])
  }

  lemma OneMoreLine(line: seq<byte>, lines: seq<seq<byte>>, cs: seq<Cohort>)
    requires cs != [] && ReadsAs(line, cs[0]) && ReadAs(lines, cs[1..])
    ensures ReadAs([line] + lines, cs)
  {
    forall i | 0 <= i < |cs|
      ensures ReadsAs(([line] + lines)[i], cs[i])
    {
      if i > 0 {
        assert cs[i] == cs[1..][i - 1];
      }
    }
  }

  /** Whoever reads the output line by line gets one document for each cohort, in order, that shows the cohort; unless a
      soname needs escaping. */
  lemma {:induction false} FileReadsBack(cs: seq<Cohort>, workernos: seq<seq<nat>>)
    requires |workernos| == |cs| && forall i :: 0 <= i < |cs| ==> |workernos[i]| == |cs[i].outputs|
    requires forall i :: 0 <= i < |cs| ==> PlainNames(cs[i].outputs)
    ensures ReadAs(SplitLines(FileText(cs, workernos)), cs)
  {
    if cs != [] {
      var text := LineText(LineOf(cs[0]), workernos[0]);
      var rest := FileText(cs[1..], workernos[1..]);
      LineOneLine(cs[0], workernos[0]);
      SplitFirst(text, rest);
      FileReadsBack(cs[1..], workernos[1..]);
      PrintedLine(cs[0], workernos[0]);
      OneMoreLine(text, SplitLines(rest), cs);
    }
  }
}

/**
 * The admin's approval of an access request in handlers/menu.py: the callback data the
 * request carries ("add_number:<user id>:<number>") and the rewrite of the
 * `AUTHORIZED_NUMBERS=` line of the `.env` file in `handle_add_number`.
 * Reading and writing the file are left to the caller: the lines go in and come out.
 */
module EnvFile {
  import opened Wrappers
  import opened Text
  import opened Numbers
  import opened Config

  const NumbersKey := "AUTHORIZED_NUMBERS="

  /** The callback data of the "✅ Добавить" button sent to every admin. */
  function CallbackData(user: int, number: string): string {
    "add_number:" + IntToString(user) + ":" + number
  }

  /**
   * `_, user_id, number = data.split(":")`, `int(user_id)`, `number.strip()`; a wrong
   * number of pieces or a non-integer id raises `ValueError`, which is `None` here.
   */
  function ParseCallback(data: string): (r: Option<(int, string)>)
    ensures |Split(data, ':')| != 3 ==> r.None?
    ensures r.Some? ==> IsStripped(r.value.1) && ParseInt(Split(data, ':')[1]) == Some(r.value.0)
  {
    var pieces := Split(data, ':');
    if |pieces| != 3 then None
    else
      match ParseInt(pieces[1])
      case None => None
      case Some(id) => Some((id, Strip(pieces[2])))
  }

  lemma {:induction false} NatToStringNoColon(n: nat)
    ensures ':' !in NatToString(n)
  {
  }

  /** The callback data splits into the tag, the user id and the number. */
  lemma CallbackPieces(user: int, number: string)
    requires ':' !in number
    ensures Split(CallbackData(user, number), ':') == ["add_number", IntToString(user), number]
  {
    var id := IntToString(user);
    assert ':' !in id by {
      if user < 0 {
        NatToStringNoColon(-user);
      } else {
        NatToStringNoColon(user);
      }
    }
    var tail := id + [':'] + number;
    SplitAfterPiece(id, number, ':');
    SplitWithoutSeparator(number, ':');
    var head := "add_number";
    SplitAfterPiece(head, tail, ':');
    CallbackDataShape(user, number);
  }

  lemma CallbackDataShape(user: int, number: string)
    ensures CallbackData(user, number) == "add_number" + [':'] + (IntToString(user) + [':'] + number)
  {
  }

  /** The approval reads back the user and the number the request was sent with. */
  lemma CallbackRoundTrip(user: int, number: string)
    requires ':' !in number
    ensures ParseCallback(CallbackData(user, number)) == Some((user, Strip(number)))
  {
    CallbackPieces(user, number);
    ParseIntToString(user);
  }

  /** A line starting with the key keeps it after `strip()`: the key begins and ends with non-blanks. */
  lemma StripKeepsKey(line: string)
    requires StartsWith(line, NumbersKey)
    ensures StartsWith(Strip(line), NumbersKey)
  {
    assert line[0] == 'A' && line[|NumbersKey| - 1] == '=';
    var r := TrimEnd(line);
    assert Strip(line) == r;
  }

  /** `line.strip().split("=", 1)[1]`: the text after the key. */
  function ListedValue(line: string): string
    requires StartsWith(line, NumbersKey)
  {
    StripKeepsKey(line);
    Strip(line)[|NumbersKey|..]
  }

  /** `[x.strip() for x in existing.split(",") if x.strip()]`. */
  function ListedNumbers(line: string): seq<string>
    requires StartsWith(line, NumbersKey)
  {
    CommaList(ListedValue(line))
  }

  /** The list with `number` appended unless it is already there. */
  function Appended(nums: seq<string>, number: string): seq<string> {
    if number in nums then nums else nums + [number]
  }

  /** One line of the loop: the key line is rewritten with `" ,".join(nums)`, every other line kept. */
  function RewriteLine(line: string, number: string): string {
    if StartsWith(line, NumbersKey) then
      NumbersKey + Join(Appended(ListedNumbers(line), number), " ,") + "\n"
    else line
  }

  predicate HasKeyLine(lines: seq<string>) {
    exists i :: 0 <= i < |lines| && StartsWith(lines[i], NumbersKey)
  }

  /** The loop's lines: each key line rewritten, every other line kept. */
  function RewrittenLines(lines: seq<string>, number: string): seq<string> {
    seq(|lines|, i requires 0 <= i < |lines| => RewriteLine(lines[i], number))
  }

  /** `f.writelines(lines)`: the file text is the lines one after another, with nothing between. */
  function Concat(lines: seq<string>): string {
    if lines == [] then "" else Concat(lines[..|lines| - 1]) + lines[|lines| - 1]
  }

  predicate EndsWithNewline(line: string) {
    line != [] && line[|line| - 1] == '\n'
  }

  /** The last line `readlines` gave has no `"\n"`: the file did not end with a line break. */
  predicate NeedsBreak(lines: seq<string>) {
    lines != [] && !EndsWithNewline(lines[|lines| - 1])
  }

  /** A line of the file text starts with the key: at the start, or right after a `"\n"`. */
  ghost predicate TextHasKeyLine(text: string) {
    exists i :: 0 <= i <= |text| && (i == 0 || text[i - 1] == '\n') && StartsWith(text[i..], NumbersKey)
  }

  /** The lines `handle_add_number` writes back, as written: the key line is appended as it is. */
  function RewriteLinesAsWritten(lines: seq<string>, number: string): seq<string> {
    RewrittenLines(lines, number) + (if HasKeyLine(lines) then [] else [NumbersKey + number + "\n"])
  }

  /**
   * The lines `handle_add_number` evidently means to write: as written, except that an appended
   * key line is put on a line of its own when the file did not end with a line break.
   */
  function RewriteLines(lines: seq<string>, number: string): seq<string> {
    RewrittenLines(lines, number)
    + (if HasKeyLine(lines) then [] else (if NeedsBreak(lines) then ["\n"] else []) + [NumbersKey + number + "\n"])
  }

  /** `handle_add_number` from the lines read to the lines written, with the line break put before an appended key line. */
  method RewriteEnvLines(lines: seq<string>, number: string) returns (newLines: seq<string>)
    ensures newLines == RewriteLines(lines, number)
  {
    var found;
    newLines, found := RewriteEach(lines, number);
    if !found {
      if NeedsBreak(lines) {
        newLines := newLines + ["\n"];
      }
      newLines := newLines + [NumbersKey + number + "\n"];
    }
  }

  /** The loop over the lines: each key line rewritten, every other line kept, and whether a key line was seen. */
  method RewriteEach(lines: seq<string>, number: string) returns (newLines: seq<string>, found: bool)
    ensures newLines == RewrittenLines(lines, number)
    ensures found == HasKeyLine(lines)
  {
    newLines := [];
    found := false;
    for i := 0 to |lines|
      invariant newLines == seq(i, k requires 0 <= k < i => RewriteLine(lines[k], number))
      invariant found <==> exists k :: 0 <= k < i && StartsWith(lines[k], NumbersKey)
    {
      var line := lines[i];
      var out;
      if |NumbersKey| <= |line| && line[..|NumbersKey|] == NumbersKey {
        found := true;
        out := RewriteKeyLine(line, number);
      } else {
        out := line;
      }
      newLines := newLines + [out];
    }
  }

  /** The body of the loop for a key line: the listed numbers, the new one appended unless listed, joined with `" ,"`. */
  method RewriteKeyLine(line: string, number: string) returns (out: string)
    requires StartsWith(line, NumbersKey)
    ensures out == RewriteLine(line, number)
  {
    StripKeepsKey(line);
    var existing := Strip(line)[|NumbersKey|..];
    var nums := CommaList(existing);
    if number !in nums {
      nums := nums + [number];
    }
    out := NumbersKey + Join(nums, " ,") + "\n";
  }

  /** Without a key line the loop keeps every line. */
  lemma NoKeyLineKept(lines: seq<string>, number: string)
    requires !HasKeyLine(lines)
    ensures RewrittenLines(lines, number) == lines
  {
  }

  lemma {:induction false} ConcatAppend(a: seq<string>, b: seq<string>)
    ensures Concat(a + b) == Concat(a) + Concat(b)
  {
    if b == [] {
      assert a + b == a;
    } else {
      ConcatAppend(a, b[..|b| - 1]);
      assert (a + b)[..|a + b| - 1] == a + b[..|b| - 1];
    }
  }

  /** A file ending with a line break, or empty, still does once the text is concatenated. */
  lemma ConcatEndsWithNewline(lines: seq<string>)
    requires !NeedsBreak(lines)
    ensures Concat(lines) == [] || Concat(lines)[|Concat(lines)| - 1] == '\n'
  {
  }

  /**
   * Without a key line, the file written back is the old text, a line break when the old text
   * lacked a final one, and the key line listing just the number, which reads back as a line.
   */
  lemma KeyLineAppended(lines: seq<string>, number: string)
    requires !HasKeyLine(lines)
    ensures var brk := if NeedsBreak(lines) then "\n" else "";
      Concat(RewriteLines(lines, number)) == Concat(lines) + brk + (NumbersKey + number + "\n")
    ensures TextHasKeyLine(Concat(RewriteLines(lines, number)))
  {
    var brk := if NeedsBreak(lines) then "\n" else "";
    var key := NumbersKey + number + "\n";
    NoKeyLineKept(lines, number);
    var tail := (if NeedsBreak(lines) then ["\n"] else []) + [key];
    ConcatAppend(lines, tail);
    if NeedsBreak(lines) {
      ConcatAppend(["\n"], [key]);
      assert Concat(["\n"]) == "\n" && Concat([key]) == key;
    } else {
      assert Concat([key]) == key;
      ConcatEndsWithNewline(lines);
    }
    var pre := Concat(lines) + brk;
    var t := Concat(RewriteLines(lines, number));
    assert t == pre + key;
    assert t[|pre|..] == key;
    assert |pre| == 0 || t[|pre| - 1] == '\n';
  }

  /**
   * As written, a `.env` made of one line with no line break (`BOT_TOKEN=5x`, say) gets the
   * key line glued onto that line: the line is changed and no line of the file holds the key.
   */
  lemma UnterminatedLineGlued(body: string, number: string)
    requires body != [] && body[0] != 'A' && '\n' !in body && '\n' !in number
    ensures Concat(RewriteLinesAsWritten([body], number)) == body + NumbersKey + number + "\n"
    ensures !TextHasKeyLine(Concat(RewriteLinesAsWritten([body], number)))
  {
    var key := NumbersKey + number + "\n";
    assert !StartsWith([body][0], NumbersKey);
    NoKeyLineKept([body], number);
    ConcatAppend([body], [key]);
    assert Concat([body]) == body && Concat([key]) == key;
    assert '\n' !in NumbersKey;
    assert body + key == (body + NumbersKey + number) + "\n";
    OneLineNoKeyLine(body + NumbersKey + number);
  }

  /** A single line that does not start with the key, ended by a line break, holds no key line. */
  lemma OneLineNoKeyLine(body: string)
    requires '\n' !in body && (body == [] || body[0] != 'A')
    ensures !TextHasKeyLine(body + "\n")
  {
    var t := body + "\n";
    forall i | 0 <= i <= |t|
      ensures (i == 0 || t[i - 1] == '\n') ==> !StartsWith(t[i..], NumbersKey)
    {
      if i == 0 {
        assert body == [] || t[0] == body[0];
      } else if i <= |body| {
        assert t[i - 1] == body[i - 1];
      } else {
        assert t[i..] == [];
      }
    }
  }

  /** The last piece of a join is its tail. */
  lemma {:induction false} JoinEndsWithLast(xs: seq<string>, sep: string)
    requires |xs| >= 1 && xs[|xs| - 1] != ""
    ensures |Join(xs, sep)| >= |xs[|xs| - 1]| > 0
    ensures Join(xs, sep)[|Join(xs, sep)| - 1] == xs[|xs| - 1][|xs[|xs| - 1]| - 1]
  {
    if |xs| > 1 {
      JoinEndsWithLast(xs[1..], sep);
      assert xs[1..][|xs[1..]| - 1] == xs[|xs| - 1];
    }
  }

  /** `NumbersKey + text + "\n"` strips back to `NumbersKey + text` when `text` ends with a non-blank. */
  lemma StripNewLine(text: string)
    requires text == [] || !IsSpace(text[|text| - 1])
    ensures StartsWith(NumbersKey + text + "\n", NumbersKey)
    ensures ListedValue(NumbersKey + text + "\n") == text
  {
    var body := NumbersKey + text;
    assert body[0] == 'A';
    assert IsStripped(body);
    StripTrailingSpace(body, "\n");
    assert NumbersKey + text + "\n" == body + "\n";
    assert body[..|NumbersKey|] == NumbersKey;
    assert body[|NumbersKey|..] == text;
  }

  /**
   * Reading the rewritten line back gives the old list with the number appended, unless
   * it was already listed, despite the `" ,"` separator.
   */
  lemma RewrittenLineLists(line: string, number: string)
    requires StartsWith(line, NumbersKey) && ListItem(number)
    ensures StartsWith(RewriteLine(line, number), NumbersKey)
    ensures ListedNumbers(RewriteLine(line, number)) == Appended(ListedNumbers(line), number)
    ensures number in ListedNumbers(RewriteLine(line, number))
  {
    var nums := Appended(ListedNumbers(line), number);
    assert forall i :: 0 <= i < |nums| ==> ListItem(nums[i]);
    var joined := Join(nums, " ,");
    JoinEndsWithLast(nums, " ,");
    StripNewLine(joined);
    assert " ," == " " + ",";
    CommaListOfJoin(nums, " ");
  }

  /** Approving the same number twice lists it once: the second rewrite changes no list. */
  lemma ApproveTwice(line: string, number: string)
    requires StartsWith(line, NumbersKey) && ListItem(number)
    ensures var once := RewriteLine(line, number);
      StartsWith(once, NumbersKey)
      && ListedNumbers(RewriteLine(once, number)) == ListedNumbers(once)
  {
    var once := RewriteLine(line, number);
    RewrittenLineLists(line, number);
    RewrittenLineLists(once, number);
  }

  /**
   * What the rewrite does to the file: other lines stay in place, every key line lists the
   * number afterwards, and a file without a key line gains one listing just the number.
   */
  lemma RewriteLinesEffect(lines: seq<string>, number: string)
    requires ListItem(number)
    ensures var r := RewriteLines(lines, number);
      && |r| == |lines| + (if HasKeyLine(lines) then 0 else if NeedsBreak(lines) then 2 else 1)
      && (!HasKeyLine(lines) && NeedsBreak(lines) ==> r[|lines|] == "\n")
      && (forall i :: 0 <= i < |lines| && !StartsWith(lines[i], NumbersKey) ==> r[i] == lines[i])
      && (forall i :: 0 <= i < |lines| && StartsWith(lines[i], NumbersKey) ==>
            StartsWith(r[i], NumbersKey) && number in ListedNumbers(r[i]))
      && (!HasKeyLine(lines) ==> StartsWith(r[|r| - 1], NumbersKey) && ListedNumbers(r[|r| - 1]) == [number])
  {
    var r := RewriteLines(lines, number);
    forall i | 0 <= i < |lines| && StartsWith(lines[i], NumbersKey)
      ensures StartsWith(r[i], NumbersKey) && number in ListedNumbers(r[i])
    {
      RewrittenLineLists(lines[i], number);
    }
    if !HasKeyLine(lines) {
      StripNewLine(number);
      assert Join([number], ",") == number;
      CommaListOfJoin([number], "");
      assert "" + "," == ",";
    }
  }
}

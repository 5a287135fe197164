/// The chat server's line protocol, as pure functions: splitting a line on
/// '|' the way Go's strings.Split does, classifying one inbound line into a
/// command, and the exact text of every line the server writes.
///
/// A string is a seq<char>, one element per code point; in ASCII text one
/// element is one byte of the Go string. The length tests of the source
/// count bytes, so Parse measures lines with ByteLen, the length of their
/// UTF-8 encoding. The non-ASCII reply constants are written as code points,
/// and each stands for its UTF-8 byte sequence.
module Protocol {

  datatype Option<+T> = None | Some(value: T)

  /** One inbound line, classified as in User.HandleMessage. */
  datatype Command =
    | Who
    | Rename(newName: string)
      /** content is None when the line has no third '|'-segment. */
    | To(target: string, content: Option<string>)
    | Public(text: string)

  const Sep: char := '|'

  // ---------------------------------------------------------------------
  // Splitting and joining on a one-character separator
  // ---------------------------------------------------------------------

  /** Position of the first c in s. */
  function IndexOf(s: string, c: char): (i: nat)
    requires c in s
    ensures i < |s| && s[i] == c && c !in s[..i]
  {
    if s[0] == c then 0
    else
      var j := IndexOf(s[1..], c);
      assert s[..j + 1] == [s[0]] + s[1..][..j];
      1 + j
  }

  /** strings.Split(s, string(sep)): the maximal sep-free pieces between the
      occurrences of sep, so one more piece than there are separators. */
  function Split(s: string, sep: char): (parts: seq<string>)
    ensures |parts| >= 1
    ensures sep in s <==> |parts| >= 2
    ensures forall i :: 0 <= i < |parts| ==> sep !in parts[i]
    decreases |s|
  {
    if sep !in s then [s]
    else
      var i := IndexOf(s, sep);
      [s[..i]] + Split(s[i + 1..], sep)
  }

  /** strings.Join(parts, string(sep)). */
  function Join(parts: seq<string>, sep: char): string
    requires |parts| >= 1
  {
    if |parts| == 1 then parts[0] else parts[0] + [sep] + Join(parts[1..], sep)
  }

  /** w is the first sep-free piece of s: a prefix of s that runs up to the
      first separator or to the end. */
  ghost predicate IsFirstSegment(s: string, w: string, sep: char)
  {
    |w| <= |s| && s[..|w|] == w && sep !in w && (|w| == |s| || s[|w|] == sep)
  }

  /** A sep-free word followed by a separator is split off as the first piece. */
  lemma {:induction false} SplitCons(w: string, sep: char, rest: string)
    requires sep !in w
    ensures Split(w + [sep] + rest, sep) == [w] + Split(rest, sep)
  {
    var s := w + [sep] + rest;
    FirstIndex(w, sep, rest);
    assert s[..|w|] == w;
    assert s[|w| + 1..] == rest;
  }

  /** The first piece of Split is exactly the first segment of the input. */
  lemma {:induction false} SplitHead(s: string, sep: char, w: string)
    ensures Split(s, sep)[0] == w <==> IsFirstSegment(s, w, sep)
  {
    if sep in s {
      var i := IndexOf(s, sep);
      assert Split(s, sep)[0] == s[..i];
    }
  }

  /** Joining the pieces back with the separator restores the input. */
  lemma {:induction false} JoinSplit(s: string, sep: char)
    ensures Join(Split(s, sep), sep) == s
    decreases |s|
  {
    if sep in s {
      var i := IndexOf(s, sep);
      var tail := s[i + 1..];
      JoinSplit(tail, sep);
      var parts := Split(s, sep);
      assert parts == [s[..i]] + Split(tail, sep);
      assert parts[1..] == Split(tail, sep);
      calc {
        Join(parts, sep);
        s[..i] + [sep] + Join(Split(tail, sep), sep);
        s[..i] + [sep] + tail;
        { assert s == s[..i] + [s[i]] + s[i + 1..]; }
        s;
      }
    }
  }

  /** Splitting a join of sep-free pieces gives the pieces back. */
  lemma {:induction false} SplitJoin(parts: seq<string>, sep: char)
    requires |parts| >= 1
    requires forall i :: 0 <= i < |parts| ==> sep !in parts[i]
    ensures Split(Join(parts, sep), sep) == parts
  {
    if |parts| > 1 {
      SplitCons(parts[0], sep, Join(parts[1..], sep));
      SplitJoin(parts[1..], sep);
      assert [parts[0]] + parts[1..] == parts;
    }
  }

  // ---------------------------------------------------------------------
  // Classifying one inbound line (src/server/user.go:60-106)
  // ---------------------------------------------------------------------

  const RenamePrefix: string := "rename|"
  const ToPrefix: string := "to|"

  /** The number of bytes UTF-8 spends on one code point. */
  function Utf8Width(c: char): (w: nat)
    ensures 1 <= w <= 4
    ensures w == 1 <==> c as int < 0x80
  {
    if c as int < 0x80 then 1
    else if c as int < 0x800 then 2
    else if c as int < 0x1_0000 then 3
    else 4
  }

  /** Go's len of the UTF-8 encoding of s: the sum of its code points'
      widths, so at least one byte and at most four per code point. */
  function ByteLen(s: string): (n: nat)
    ensures |s| <= n <= 4 * |s|
  {
    if s == [] then 0 else Utf8Width(s[0]) + ByteLen(s[1..])
  }

  /** The encoding of a concatenation is the concatenation of encodings. */
  lemma {:induction false} ByteLenConcat(a: string, b: string)
    ensures ByteLen(a + b) == ByteLen(a) + ByteLen(b)
  {
    if a == [] {
      assert a + b == b;
    } else {
      assert (a + b)[0] == a[0] && (a + b)[1..] == a[1..] + b;
      ByteLenConcat(a[1..], b);
    }
  }

  /** ASCII text has one byte per code point. */
  lemma {:induction false} ByteLenAscii(s: string)
    requires forall i :: 0 <= i < |s| ==> s[i] as int < 0x80
    ensures ByteLen(s) == |s|
  {
    if s != [] {
      assert forall i :: 0 <= i < |s[1..]| ==> s[1..][i] == s[i + 1];
      ByteLenAscii(s[1..]);
    }
  }

  /** A line that starts with an ASCII prefix p is longer than |p| bytes
      exactly when it has more than |p| code points, and longer than
      |p| + 1 bytes when its next code point is not ASCII. */
  lemma ByteLenAfterPrefix(line: string, p: string)
    requires |p| <= |line| && line[..|p|] == p
    requires forall i :: 0 <= i < |p| ==> p[i] as int < 0x80
    ensures ByteLen(line) == |p| + ByteLen(line[|p|..])
    ensures ByteLen(line) > |p| <==> |line| > |p|
  {
    var rest := line[|p|..];
    assert line == p + rest;
    ByteLenConcat(p, rest);
    ByteLenAscii(p);
    assert ByteLen(rest) > 0 <==> |rest| > 0;
  }

  /** The command a line denotes. The tests come in the source's order: the
      exact word "who"; "rename|" on a line longer than 7 bytes; "to|" on a
      line longer than 4 bytes; anything else is public chat. Lengths are
      byte counts of the UTF-8 encoding, as Go's len gives them. Fields are
      the '|'-pieces [1] and [2] of the whole line. */
  function Parse(line: string): (c: Command)
    ensures c.Public? ==> c.text == line
  {
    if line == "who" then Who
    else if ByteLen(line) > 7 && |line| >= 7 && line[..7] == RenamePrefix then
      assert line[..7][6] == Sep;
      Rename(Split(line, Sep)[1])
    else if ByteLen(line) > 4 && |line| >= 3 && line[..3] == ToPrefix then
      assert line[..3][2] == Sep;
      var parts := Split(line, Sep);
      To(parts[1], if |parts| > 2 then Some(parts[2]) else None)
    else Public(line)
  }

  /** A rename line names the first segment after "rename|"; nothing after a
      further '|' matters. */
  lemma ParseRenameIff(line: string, n: string)
    ensures Parse(line) == Rename(n) <==>
      |line| > 7 && line[..7] == RenamePrefix && IsFirstSegment(line[7..], n, Sep)
  {
    if |line| >= 7 && line[..7] == RenamePrefix {
      ByteLenAfterPrefix(line, RenamePrefix);
    }
    if |line| > 7 && line[..7] == RenamePrefix {
      assert line == "rename" + [Sep] + line[7..];
      SplitCons("rename", Sep, line[7..]);
      SplitHead(line[7..], Sep, n);
    }
  }

  /** The pieces of s after its first segment t, if there are any more. */
  lemma {:induction false} SplitSecond(s: string, sep: char, t: string)
    requires IsFirstSegment(s, t, sep)
    ensures |Split(s, sep)| > 1 <==> |s| > |t|
    ensures |s| > |t| ==> Split(s, sep) == [t] + Split(s[|t| + 1..], sep)
  {
    if |s| > |t| {
      assert s == t + [sep] + s[|t| + 1..];
      SplitCons(t, sep, s[|t| + 1..]);
    } else {
      assert s == t;
    }
  }

  /** Parse on a "to|" line, in terms of the pieces of what follows "to|". */
  lemma ParseToPieces(line: string)
    requires ByteLen(line) > 4 && |line| >= 3 && line[..3] == ToPrefix
    ensures var p := Split(line[3..], Sep);
      Parse(line) == To(p[0], if |p| > 1 then Some(p[1]) else None)
  {
    assert line[0] == line[..3][0] == 't';
    assert line != "who";
    assert !(|line| >= 7 && line[..7] == RenamePrefix) by {
      if |line| >= 7 {
        assert line[..7][0] == 't';
      }
    }
    var parts := Split(line, Sep);
    assert line == "to" + [Sep] + line[3..];
    SplitCons("to", Sep, line[3..]);
    assert Parse(line) == To(parts[1], if |parts| > 2 then Some(parts[2]) else None);
  }

  /** A "to|" line names the target as its second segment and the content as
      its third, if there is one; later segments are dropped. */
  lemma ParseToIff(line: string, t: string, c: Option<string>)
    ensures Parse(line) == To(t, c) <==>
      && ByteLen(line) > 4 && |line| >= 3 && line[..3] == ToPrefix
      && IsFirstSegment(line[3..], t, Sep)
      && (c.None? <==> |line| == 3 + |t|)
      && (c.Some? ==> IsFirstSegment(line[4 + |t|..], c.value, Sep))
  {
    if ByteLen(line) > 4 && |line| >= 3 && line[..3] == ToPrefix {
      var rest := line[3..];
      ParseToPieces(line);
      SplitHead(rest, Sep, t);
      if IsFirstSegment(rest, t, Sep) {
        SplitSecond(rest, Sep, t);
        if |rest| > |t| && c.Some? {
          assert rest[|t| + 1..] == line[4 + |t|..];
          SplitHead(line[4 + |t|..], Sep, c.value);
        }
      }
    }
  }

  /** Lines that look like commands but fail a length test are public chat. */
  lemma ParseShortLines()
    ensures Parse("who") == Who
    ensures Parse("who ") == Public("who ")
    ensures Parse("") == Public("")
    ensures Parse("rename|") == Public("rename|")
    ensures Parse("to|a") == Public("to|a")
  {
    assert |"who "| == 4 && |"rename|"| == 7 && |"to|a"| == 4;
    assert "who " != "who";
    assert "rename|"[..3][0] == 'r';
    assert "rename|"[..3] != ToPrefix;
  }

  /** "to|" and one code point of three UTF-8 bytes is six bytes long, so it
      is a private message to that one-character name, with no content. */
  lemma ParseToWideTarget()
    ensures Parse("to|张") == To("张", None)
  {
    var line := "to|张";
    assert line[..3] == ToPrefix;
    assert line[3..] == "张";
    ByteLenAfterPrefix(line, ToPrefix);
    assert Utf8Width('张') == 3;
    ParseToIff(line, "张", None);
  }

  /** "rename||x" renames to the empty second segment. */
  lemma ParseRenameEmpty()
    ensures Parse("rename||x") == Rename("")
  {
    var line := "rename||x";
    assert line[7..] == "|x";
    ParseRenameIff(line, "");
  }

  /** "to|ab" names a target but has no content segment. */
  lemma ParseToWithoutContent()
    ensures Parse("to|ab") == To("ab", None)
  {
    var line := "to|ab";
    assert line[3..] == "ab";
    ParseToIff(line, "ab", None);
  }

  /** "to||hi" has an empty target segment. */
  lemma ParseToEmptyTarget()
    ensures Parse("to||hi") == To("", Some("hi"))
  {
    var line := "to||hi";
    assert line[..3] == ToPrefix;
    assert line[3..] == "|hi";
    assert line[4..] == "hi";
    ParseToIff(line, "", Some("hi"));
  }

  /** What the handler dispatches for one read chunk: the chunk minus exactly
      its last byte, whatever that byte is. */
  function StripLast(chunk: string): (line: string)
    requires |chunk| > 0
    ensures line + [chunk[|chunk| - 1]] == chunk
  {
    chunk[..|chunk| - 1]
  }

  /** The client's rename request "rename|" + name + "\n" arrives as a rename
      to that name when the name is non-empty and '|'-free; with an empty
      name it is public chat. */
  lemma ClientRenameLine(n: string)
    requires Sep !in n
    ensures n != [] ==> Parse(StripLast(RenamePrefix + n + "\n")) == Rename(n)
    ensures n == [] ==> Parse(StripLast(RenamePrefix + n + "\n")) == Public(RenamePrefix)
  {
    var line := StripLast(RenamePrefix + n + "\n");
    assert line == RenamePrefix + n;
    assert line[7..] == n;
    ByteLenAfterPrefix(line, RenamePrefix);
    assert line[..3] != ToPrefix by {
      assert line[..3][0] == 'r';
    }
    ParseRenameIff(line, n);
  }

  /** The client's private message "to|" + name + "|" + text + "\n\n" arrives
      with one '\n' still attached to the text. */
  lemma ClientPrivateLine(r: string, m: string)
    requires Sep !in r && Sep !in m
    ensures Parse(StripLast(ToPrefix + r + [Sep] + m + "\n\n")) == To(r, Some(m + "\n"))
  {
    var line := StripLast(ToPrefix + r + [Sep] + m + "\n\n");
    assert line == ToPrefix + r + [Sep] + m + "\n";
    assert line[3..] == r + [Sep] + m + "\n";
    assert line[4 + |r|..] == m + "\n";
    ParseToIff(line, r, Some(m + "\n"));
  }

  /** Only the third segment is content: "to|t|c|rest" sends c. */
  lemma ContentIsThirdSegment(t: string, c: string, rest: string)
    requires Sep !in t && Sep !in c
    ensures Parse(ToPrefix + t + [Sep] + c + [Sep] + rest) == To(t, Some(c))
  {
    var line := ToPrefix + t + [Sep] + c + [Sep] + rest;
    assert line[..3] == ToPrefix;
    assert line[3..] == t + [Sep] + c + [Sep] + rest;
    assert line[3..][|t|] == Sep;
    assert line[4 + |t|..] == c + [Sep] + rest;
    assert line[4 + |t|..][|c|] == Sep;
    ParseToIff(line, t, Some(c));
  }

  // ---------------------------------------------------------------------
  // Lines the server writes (src/server/user.go, src/server/server.go)
  // ---------------------------------------------------------------------

  const OnlineNotice: string := "已上线"
  const OfflineNotice: string := "已下线"
  const NameInUse: string := "当前用户名被使用\n"
  const FormatError: string := "消息格式不正确，请使用\" to|userName|message\"格式。\n"
  const NoSuchUser: string := "当前用户不存在\n"
  const EmptyMessage: string := "无效消息，请重发\n"
  const Sent: string := "发送成功\n"
  const KickNotice: string := "你已超时，已被踢出服务器"

  /** The text of every "who" entry, after the sender frame. */
  const WhoMarker: string := "在线..."

  /** BroadCast's format: "[addr]name:msg", no space after the colon. */
  function BroadcastLine(addr: string, name: string, msg: string): (line: string)
  {
    "[" + addr + "]" + name + ":" + msg
  }

  /** Where the fields of a broadcast line sit: the address between the
      brackets, the name from there to the colon, the text after it. */
  lemma BroadcastLineFields(addr: string, name: string, msg: string)
    ensures var line := BroadcastLine(addr, name, msg);
      && |line| == |addr| + |name| + |msg| + 3
      && line[0] == '[' && line[1..|addr| + 1] == addr && line[|addr| + 1] == ']'
      && line[|addr| + 2..|addr| + 2 + |name|] == name && line[|addr| + 2 + |name|] == ':'
      && line[|addr| + 3 + |name|..] == msg
  {
  }

  /** One entry of the reply to "who": the session's broadcast frame with
      the online marker and a newline as its text (see
      Chat.PublicLineMimicsWhoEntry). */
  function WhoLine(addr: string, name: string): (line: string)
  {
    "[" + addr + "]" + name + ":在线...\n"
  }

  /** What the target of a private message receives: the sender's name,
      a colon and a space, the content, and a newline. */
  function PrivateLine(sender: string, content: string): (line: string)
  {
    sender + ": " + content + "\n"
  }

  /** Where the fields of a private line sit: the sender up to ": ", then the
      content, then the closing newline. */
  lemma PrivateLineFields(sender: string, content: string)
    ensures var line := PrivateLine(sender, content);
      && |line| == |sender| + |content| + 3
      && line[..|sender|] == sender && line[|sender|..|sender| + 2] == ": "
      && line[|sender| + 2..|line| - 1] == content && line[|line| - 1] == '\n'
  {
  }

  /** The fixed start of the reply to a successful rename. */
  const RenamedPrefix: string := "您已经更新用户名:"

  /** The reply to a successful rename. */
  function RenamedReply(newName: string): (line: string)
  {
    RenamedPrefix + newName + "\n"
  }

  /** The new name closes the rename reply, just before its newline. */
  lemma RenamedReplyFields(newName: string)
    ensures var line := RenamedReply(newName);
      && |line| == |RenamedPrefix| + |newName| + 1
      && line[..|RenamedPrefix|] == RenamedPrefix
      && line[|RenamedPrefix|..|line| - 1] == newName && line[|line| - 1] == '\n'
  {
  }

  /** The address of a broadcast line is determined when it has no ']',
      whatever the name and the text; so is the remainder name + ":" + msg.
      An IPv6 address such as "[::1]:5000" contains ']' and is not covered. */
  lemma {:induction false} BroadcastLineAddress(a1: string, n1: string, m1: string,
                                                a2: string, n2: string, m2: string)
    requires ']' !in a1 && ']' !in a2
    requires BroadcastLine(a1, n1, m1) == BroadcastLine(a2, n2, m2)
    ensures a1 == a2 && n1 + ":" + m1 == n2 + ":" + m2
  {
    var l := BroadcastLine(a1, n1, m1);
    FirstIndex("[" + a1, ']', n1 + ":" + m1);
    FirstIndex("[" + a2, ']', n2 + ":" + m2);
    assert l == "[" + a1 + "]" + (n1 + ":" + m1);
    assert l == "[" + a2 + "]" + (n2 + ":" + m2);
    assert |a1| == |a2|;
    assert a1 == l[1..1 + |a1|] == a2;
    assert n1 + ":" + m1 == l[2 + |a1|..] == n2 + ":" + m2;
  }

  /** A broadcast line names its sender and its text unambiguously when the
      address has no ']' and the name has no ':'. A session that has not
      renamed is named by its address "host:port", which contains ':', so
      for it only BroadcastLineAddress applies. */
  lemma {:induction false} BroadcastLineInjective(a1: string, n1: string, m1: string,
                                                   a2: string, n2: string, m2: string)
    requires ']' !in a1 && ']' !in a2 && ':' !in n1 && ':' !in n2
    requires BroadcastLine(a1, n1, m1) == BroadcastLine(a2, n2, m2)
    ensures a1 == a2 && n1 == n2 && m1 == m2
  {
    BroadcastLineAddress(a1, n1, m1, a2, n2, m2);
    var r := n1 + ":" + m1;
    FirstIndex(n1, ':', m1);
    FirstIndex(n2, ':', m2);
    assert n1 == r[..|n1|] == n2;
    assert m1 == r[|n1| + 1..] == m2;
  }

  /** The first c in w + [c] + rest is just after w, when w has no c. */
  lemma {:induction false} FirstIndex(w: string, c: char, rest: string)
    requires c !in w
    ensures IndexOf(w + [c] + rest, c) == |w|
  {
    var s := w + [c] + rest;
    assert s[|w|] == c;
    assert s[..|w|] == w;
  }
}

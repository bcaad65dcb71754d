/** The sending half as the source writes it: recursive writes, each message followed by a read. */
module ScpSenderProcess {
  import opened Prelude
  import opened ScpSender
  import opened ScpProcess

  /** What a sender of `messages` writes and reads when the peer's bytes are `replies`. */
  datatype Talked = Talked(written: string, left: string, ok: bool)

  /** readSCPAck: a zero byte; anything else ends the transfer after its line. */
  function AfterReply(replies: string): (r: (bool, string))
    ensures |r.1| <= |replies|
  {
    if replies == "" then (false, "")
    else if replies[0] == '\0' then (true, replies[1..])
    else
      var text := replies[1..];
      var i := IndexOf(text, '\n');
      (false, if i < |text| then text[i + 1..] else "")
  }

  function Talk(messages: seq<string>, replies: string): Talked
    decreases messages
  {
    if messages == [] then Talked("", replies, true)
    else
      var reply := AfterReply(replies);
      if !reply.0 then Talked(messages[0], reply.1, false)
      else
        var rest := Talk(messages[1..], reply.1);
        rest.(written := messages[0] + rest.written)
  }

  lemma {:induction false} TalkConcat(a: seq<string>, b: seq<string>, replies: string)
    ensures var first := Talk(a, replies);
            Talk(a + b, replies) ==
            if !first.ok then first
            else var second := Talk(b, first.left); second.(written := first.written + second.written)
    decreases a
  {
    hide AfterReply;
    if a == [] {
      assert a + b == b;
    } else {
      assert (a + b)[1..] == a[1..] + b;
      var reply := AfterReply(replies);
      if reply.0 {
        TalkConcat(a[1..], b, reply.1);
        var first := Talk(a[1..], reply.1);
        var second := Talk(b, first.left);
        assert a[0] + (first.written + second.written) == a[0] + first.written + second.written;
      }
    }
  }

  class SenderProcess {
    var out: string

    constructor ()
      ensures out == ""
    {
      out := "";
    }

    method ReadAck(reader: ByteReader) returns (ok: bool)
      requires reader.Valid()
      modifies reader
      ensures reader.Valid()
      ensures (ok, reader.Rest()) == AfterReply(old(reader.Rest()))
    {
      var all := reader.Rest();
      var code := reader.ReadByte();
      if code.None? {
        return false;
      }
      if code.value == '\0' {
        return true;
      }
      ghost var text := reader.Rest();
      assert text == all[1..];
      var message := reader.ReadLine();
      if message.Some? {
        assert text == message.value + ['\n'] + reader.Rest();
        IndexOfConcat(message.value, '\n', reader.Rest());
      }
      return false;
    }

    method Say(message: string, reader: ByteReader) returns (ok: bool)
      requires reader.Valid()
      modifies this, reader
      ensures reader.Valid()
      ensures var t := Talk([message], old(reader.Rest()));
              out == old(out) + t.written && reader.Rest() == t.left && ok == t.ok
    {
      out := out + message;
      ok := ReadAck(reader);
      assert [message][1..] == [];
    }

    /** The message that -p adds. */
    method SendTimes(reader: ByteReader, t: Tree, opts: Options) returns (ok: bool)
      requires reader.Valid()
      modifies this, reader
      ensures reader.Valid()
      ensures var talk := Talk(TimesMessages(t, opts), old(reader.Rest()));
              out == old(out) + talk.written && reader.Rest() == talk.left && ok == talk.ok
    {
      hide Talk, TimesText, AfterReply;
      TalkNothing(reader.Rest());
      ok := true;
      if opts.preserve {
        ok := Say(TimesText(t) + "\n", reader);
      }
    }

    /** sendSCPEntry. */
    method SendEntry(reader: ByteReader, t: Tree, opts: Options) returns (ok: bool)
      requires reader.Valid()
      modifies this, reader
      ensures reader.Valid()
      ensures var script := TreeScript(t, opts);
              var talk := Talk(script.messages, old(reader.Rest()));
              && out == old(out) + talk.written && reader.Rest() == talk.left
              && ok == (talk.ok && script.ok)
      decreases t, 1
    {
      hide Talk, TreeScript, ListScript, HeaderText, TimesMessages, AfterReply;
      ghost var replies := reader.Rest();
      TalkNothing(replies);
      if '\r' in t.name || '\n' in t.name {
        ScriptRefused(t, opts);
        return false;
      }
      TalkScript(t, opts, replies);
      var timed := SendTimes(reader, t, opts);
      if !timed {
        return false;
      }
      if t.Folder? && !opts.recursive {
        return false;
      }
      var sent := Say(HeaderText(t) + "\n", reader);
      if !sent {
        return false;
      }
      if t.Leaf? {
        ok := Say(t.content + "\0", reader);
      } else {
        TalkNothing(Talk(ListScript(t.children, opts).messages, reader.Rest()).left);
        ok := SendList(reader, t.children, opts);
        if ok {
          ok := Say("E\n", reader);
        }
      }
    }

    /** The loop over os.ReadDir's entries. */
    method SendList(reader: ByteReader, ts: seq<Tree>, opts: Options) returns (ok: bool)
      requires reader.Valid()
      modifies this, reader
      ensures reader.Valid()
      ensures var script := ListScript(ts, opts);
              var talk := Talk(script.messages, old(reader.Rest()));
              && out == old(out) + talk.written && reader.Rest() == talk.left
              && ok == (talk.ok && script.ok)
      decreases ts, 0
    {
      hide Talk, TreeScript, AfterReply;
      ghost var replies := reader.Rest();
      ghost var said := "";
      TalkNothing(replies);
      for i := 0 to |ts|
        invariant reader.Valid()
        invariant out == old(out) + said
        invariant ListScript(ts, opts).ok == ListScript(ts[i..], opts).ok
        invariant Talk(ListScript(ts, opts).messages, replies) ==
                  var rest := Talk(ListScript(ts[i..], opts).messages, reader.Rest());
                  rest.(written := said + rest.written)
      {
        assert ts[i..][1..] == ts[i + 1..];
        ghost var first := TreeScript(ts[i], opts);
        ghost var before := reader.Rest();
        TalkConcat(first.messages, ListScript(ts[i + 1..], opts).messages, before);
        var sent := SendEntry(reader, ts[i], opts);
        ghost var talk := Talk(first.messages, before);
        ghost var more := Talk(ListScript(ts[i + 1..], opts).messages, talk.left);
        SaidMore(said, talk.written, more.written);
        said := said + talk.written;
        if !sent {
          return false;
        }
      }
      assert ts[|ts|..] == [];
      TalkNothing(reader.Rest());
      assert said + "" == said;
      return true;
    }

    /** sendSCP: the receiver's first acknowledgement, then the entry. */
    method Send(reader: ByteReader, t: Tree, opts: Options) returns (ok: bool)
      requires reader.Valid()
      modifies this, reader
      ensures reader.Valid()
      ensures var script := TreeScript(t, opts);
              var first := AfterReply(old(reader.Rest()));
              var talk := Talk(script.messages, first.1);
              if first.0
              then out == old(out) + talk.written && reader.Rest() == talk.left && ok == (talk.ok && script.ok)
              else out == old(out) && reader.Rest() == first.1 && !ok
    {
      hide Talk, TreeScript, AfterReply;
      ok := ReadAck(reader);
      if ok {
        ok := SendEntry(reader, t, opts);
      }
    }
  }

  lemma TalkNothing(replies: string)
    ensures Talk([], replies) == Talked("", replies, true)
  {
  }

  lemma SaidMore(a: string, b: string, c: string)
    ensures a + b + c == a + (b + c)
  {
  }

  lemma ScriptRefused(t: Tree, opts: Options)
    requires '\r' in t.name || '\n' in t.name
    ensures TreeScript(t, opts) == Script([], false)
  {
  }

  /** One message after another: what both sides have said once `next` has been added. */
  ghost function Then(first: Talked, next: Talked): Talked {
    if first.ok then next.(written := first.written + next.written) else first
  }

  /** The script of a tree, message by message: times, header, then the content or the children. */
  lemma TalkScript(t: Tree, opts: Options, replies: string)
    requires '\r' !in t.name && '\n' !in t.name
    ensures var times := Talk(TimesMessages(t, opts), replies);
            var header := Talk([HeaderText(t) + "\n"], times.left);
            && TreeScript(t, opts).ok == (t.Leaf? || (opts.recursive && ListScript(t.children, opts).ok))
            && Talk(TreeScript(t, opts).messages, replies) ==
               if t.Leaf? then Then(Then(times, header), Talk([t.content + "\0"], header.left))
               else if !opts.recursive then times
               else
                 var inner := ListScript(t.children, opts);
                 var below := Talk(inner.messages, header.left);
                 Then(Then(times, header), Then(below, Talk(if inner.ok then ["E\n"] else [], below.left)))
  {
    hide Talk, ListScript, HeaderText, TimesText, TimesMessages;
    var times := TimesMessages(t, opts);
    var header := [HeaderText(t) + "\n"];
    if t.Leaf? {
      var content := [t.content + "\0"];
      TalkThree(times, header, content, replies);
      assert times + [HeaderText(t) + "\n", t.content + "\0"] == times + header + content;
    } else if opts.recursive {
      var inner := ListScript(t.children, opts);
      var end := if inner.ok then ["E\n"] else [];
      TalkThree(times, header, inner.messages + end, replies);
      TalkConcat(inner.messages, end, Talk(header, Talk(times, replies).left).left);
      assert times + header + inner.messages + end == times + header + (inner.messages + end);
    }
  }

  lemma TalkThree(a: seq<string>, b: seq<string>, c: seq<string>, replies: string)
    ensures var t1 := Talk(a, replies);
            var t2 := Talk(b, t1.left);
            var t3 := Talk(c, t2.left);
            Talk(a + b + c, replies) ==
            if !t1.ok then t1
            else if !t2.ok then t2.(written := t1.written + t2.written)
            else t3.(written := t1.written + t2.written + t3.written)
  {
    hide Talk;
    TalkConcat(a + b, c, replies);
    TalkConcat(a, b, replies);
  }

  /** Fed with acknowledgements only, the sender writes every message. */
  lemma {:induction false} TalkAcked(messages: seq<string>, more: string)
    ensures Talk(messages, Acks(|messages|) + more) == Talked(Flatten(messages), more, true)
    decreases messages
  {
    var replies := Acks(|messages|) + more;
    if messages == [] {
      assert replies == more;
    } else {
      assert replies[0] == '\0' && replies[1..] == Acks(|messages[1..]|) + more;
      TalkAcked(messages[1..], more);
    }
  }
}

/**
 * The key source (pkg/authz/key_source.go): an atomic snapshot, an unlocked
 * stat that is trusted only outside a racy window, and a reread under a lock.
 *
 * The source is a class here, and the rules its methods follow are functions.
 * KeySourceProtocol runs those same functions as the steps of any number of
 * threads, interleaved with changes of the file and the advance of the clock.
 */
module KeySources {
  import opened Wrappers
  import opened Authz

  /** Two seconds in nanoseconds. */
  const RACY_WINDOW: int := 2_000_000_000

  /** What reading a file gives: its text, or an error (a directory, no permission). */
  datatype Body = Text(text: string) | Unreadable

  /** readable is whether the process may read it: permissions, which the time stamp does not show. */
  datatype File = File(inode: nat, mtime: int, size: nat, body: Body, readable: bool)

  /** What stands at the path. */
  datatype Place = Missing(error: string) | Present(file: File)

  datatype Info = Info(inode: nat, mtime: int, size: nat)

  datatype Stat = Found(info: Info) | Failed(error: string)

  datatype Snapshot = Snapshot(keys: KeySet, data: string, info: Option<Info>, readAt: int, statErr: string)

  /** Which failed change was reported last: a stat's error, or a file's time and size. */
  datatype FailKey = StatKey(error: string) | FileKey(mtime: int, size: nat)

  function StatOf(p: Place): Stat {
    match p
    case Missing(e) => Failed(e)
    case Present(f) => Found(Info(f.inode, f.mtime, f.size))
  }

  /** Reading the path, whatever a stat of it said before. */
  function BodyOf(p: Place): Body {
    match p
    case Missing(_) => Unreadable
    case Present(f) => if f.readable then f.body else Unreadable
  }

  /** The stat shows the file of the snapshot, and one old enough for the stat to tell. */
  predicate Unchanged(snap: Snapshot, stat: Stat) {
    match stat
    case Failed(e) => e == snap.statErr
    case Found(i) => snap.info == Some(i) && i.mtime < snap.readAt - RACY_WINDOW
  }

  /** The first snapshot: what was read and parsed, with the stat taken after it. */
  function OpeningSnapshot(keys: KeySet, data: string, stat: Stat, readAt: int): Snapshot {
    Snapshot(keys, data, if stat.Found? then Some(stat.info) else None, readAt, "")
  }

  /** The failure a reread ends with, if it ends with one. */
  ghost function FailureOf(decode: Decoder, snap: Snapshot, stat: Stat, body: Body): Option<FailKey> {
    match stat
    case Failed(e) => Some(StatKey(e))
    case Found(i) =>
      if body.Text? && (body.text == snap.data || Parse(decode, body.text).Some?) then None
      else Some(FileKey(i.mtime, i.size))
  }

  /** The snapshot a reread stores over snap, which it found under the lock. */
  ghost function NextSnapshot(decode: Decoder, snap: Snapshot, stat: Stat, readAt: int, body: Body): Snapshot {
    match stat
    case Failed(e) => Snapshot(snap.keys, snap.data, None, readAt, e)
    case Found(i) =>
      if body.Text? && body.text != snap.data && Parse(decode, body.text).Some? then
        Snapshot(Parse(decode, body.text).value, body.text, Some(i), readAt, "")
      else
        Snapshot(snap.keys, snap.data, Some(i), readAt, "")
  }

  /** A reread that failed is reported unless the same change was the one that failed last. */
  predicate Warns(failed: Option<FailKey>, failure: Option<FailKey>) {
    failure.Some? && failure != failed
  }

  /** A source that was opened: the part of it a reread changes, all under its lock. */
  class KeySource {
    var cur: Snapshot
    var failed: Option<FailKey>

    /**
     * Open, after the read and the parse that gave keys, with the stat taken
     * last. From then on the source serves a valid set; trusts no stat but of
     * that same file, stamped before the window; and trusts none at all if the
     * stat failed, so that the next call reads the file.
     */
    constructor (ghost decode: Decoder, keys: KeySet, data: string, stat: Stat, readAt: int)
      requires Parse(decode, data) == Some(keys)
      ensures cur == OpeningSnapshot(keys, data, stat, readAt) && failed == None
      ensures Enabled(cur.keys) && cur.keys.keys != [] && ValidKeys(cur.keys.keys)
      ensures forall i: Info :: Unchanged(cur, Found(i)) <==> stat == Found(i) && i.mtime < readAt - 2_000_000_000
      ensures forall e: string :: e != "" ==> !Unchanged(cur, Failed(e))
    {
      cur := Snapshot(keys, data, if stat.Found? then Some(stat.info) else None, readAt, "");
      failed := None;
    }

    /**
     * The body of the lock. parsed is what Parse gave for a text that differs
     * from the one in force; the file is read only when the stat succeeded.
     */
    method Reread(ghost decode: Decoder, stat: Stat, now: int, body: Body, parsed: Option<KeySet>)
      returns (keys: KeySet, warn: bool)
      requires body.Text? ==> parsed == Parse(decode, body.text)
      modifies this
      ensures cur == NextSnapshot(decode, old(cur), stat, now, body)
      ensures failed == FailureOf(decode, old(cur), stat, body)
      ensures warn == Warns(old(failed), FailureOf(decode, old(cur), stat, body))
      ensures keys == cur.keys
      // what it reads: the new keys if there are any, and of what stat and time, either way
      ensures cur.readAt == now && cur.info == (if stat.Found? then Some(stat.info) else None)
      ensures cur.statErr == if stat.Failed? then stat.error else ""
      ensures stat.Found? && body.Text? && Parse(decode, body.text).Some? && body.text != old(cur).data ==>
                cur.data == body.text && Some(cur.keys) == Parse(decode, body.text)
      ensures stat.Failed? || body.Unreadable? || Parse(decode, body.text).None? || body.text == old(cur).data ==>
                cur.data == old(cur).data && cur.keys == old(cur).keys
      // what it reports: a failure, unless the change that failed is the one remembered
      ensures var fails := stat.Failed? || body.Unreadable? || (body.text != old(cur).data && Parse(decode, body.text).None?);
              && (!fails ==> failed == None && !warn)
              && (fails ==>
                    && failed == Some(if stat.Failed? then StatKey(stat.error) else FileKey(stat.info.mtime, stat.info.size))
                    && (warn <==> failed != old(failed)))
    {
      var info := if stat.Found? then Some(stat.info) else None;
      var next := Snapshot(cur.keys, cur.data, info, now, "");
      var err := stat.Failed?;
      if !err {
        if body.Unreadable? {
          err := true;
        } else if body.text != cur.data {
          if parsed.Some? {
            next := next.(keys := parsed.value, data := body.text);
          } else {
            err := true;
          }
        }
      }
      if stat.Failed? {
        next := next.(statErr := stat.error);
      }
      cur := next;
      if !err {
        failed := None;
        return next.keys, false;
      }
      var key := if stat.Found? then FileKey(stat.info.mtime, stat.info.size) else StatKey(stat.error);
      if Some(key) == failed {
        return next.keys, false;
      }
      failed := Some(key);
      return next.keys, true;
    }

    /** A call with nothing else running: a trusted stat changes nothing, any other is followed by a reread. */
    method Current(ghost decode: Decoder, stat: Stat, now: int, body: Body, parsed: Option<KeySet>)
      returns (keys: KeySet, warn: bool)
      requires body.Text? ==> parsed == Parse(decode, body.text)
      modifies this
      ensures keys == cur.keys
      ensures Unchanged(old(cur), stat) ==> cur == old(cur) && failed == old(failed) && !warn
      ensures !Unchanged(old(cur), stat) ==>
                && cur == NextSnapshot(decode, old(cur), stat, now, body)
                && failed == FailureOf(decode, old(cur), stat, body) && warn == Warns(old(failed), failed)
    {
      if Unchanged(cur, stat) {
        return cur.keys, false;
      }
      keys, warn := Reread(decode, stat, now, body, parsed);
    }
  }
}

/** The constraints account and its pending update as the buffers they are: applying copies the
    entries' byte range from one to the other and then sets two scalars. */
module RawConstraints {
  import opened Common

  const DISCRIMINATOR_SIZE := 8
  const VAULT_SIZE := 32
  const ENTRIES_OFFSET := DISCRIMINATOR_SIZE + VAULT_SIZE
  const ENTRIES_SIZE := 560 * 64
  const COUNT_OFFSET := ENTRIES_OFFSET + ENTRIES_SIZE
  const STRICT_OFFSET := COUNT_OFFSET + 1
  const REST_OFFSET := STRICT_OFFSET + 1
  const CONSTRAINTS_SIZE := 35_888
  const PENDING_SIZE := 35_912

  /** The fields both accounts begin with, and whatever each has after them. */
  datatype Layout = Layout(
    discriminator: seq<Byte>,
    vault: seq<Byte>,
    entries: seq<Byte>,
    entryCount: Byte,
    strictMode: Byte,
    rest: seq<Byte>)

  function Decode(data: seq<Byte>): Layout
    requires |data| >= REST_OFFSET
  {
    Layout(data[..DISCRIMINATOR_SIZE], data[DISCRIMINATOR_SIZE..ENTRIES_OFFSET], data[ENTRIES_OFFSET..COUNT_OFFSET],
           data[COUNT_OFFSET], data[STRICT_OFFSET], data[REST_OFFSET..])
  }

  function Encode(l: Layout): seq<Byte> {
    l.discriminator + l.vault + l.entries + [l.entryCount, l.strictMode] + l.rest
  }

  /** The layout covers every byte of an account, once. */
  lemma LayoutCoversAccount(data: seq<Byte>)
    requires |data| >= REST_OFFSET
    ensures Encode(Decode(data)) == data
  {
    var l := Decode(data);
    assert l.discriminator + l.vault == data[..ENTRIES_OFFSET];
    assert data[..ENTRIES_OFFSET] + l.entries == data[..COUNT_OFFSET];
    assert data[..COUNT_OFFSET] + [l.entryCount, l.strictMode] == data[..REST_OFFSET];
    assert data[..REST_OFFSET] + l.rest == data;
  }

  /** Copies one byte range between two buffers. */
  method CopyRange(target: array<Byte>, source: array<Byte>, first: nat, size: nat)
    requires target != source && first + size <= target.Length && first + size <= source.Length
    modifies target
    ensures target[..] == old(target[..first]) + source[first..first + size] + old(target[first + size..])
  {
    for i := first to first + size
      invariant forall j :: 0 <= j < target.Length ==> target[j] == if first <= j < i then source[j] else old(target[j])
    {
      target[i] := source[i];
    }
  }

  /** The entries and the two scalars become the pending ones; discriminator, vault, bump, version
      and padding stay, byte for byte. The vault is checked only after the copy, so a mismatch
      leaves the copied entries for the runtime to discard. */
  method ApplyEntries(constraints: array<Byte>, pending: array<Byte>, vault: seq<Byte>) returns (ok: bool)
    requires constraints != pending && constraints.Length == CONSTRAINTS_SIZE && pending.Length == PENDING_SIZE
    modifies constraints
    ensures ok <==> old(Decode(constraints[..])).vault == vault
    ensures var was, next := old(Decode(constraints[..])), Decode(pending[..]);
            Decode(constraints[..]) ==
            if ok then was.(entries := next.entries, entryCount := next.entryCount, strictMode := next.strictMode)
            else was.(entries := next.entries)
  {
    ghost var was := constraints[..];
    var newEntryCount, newStrictMode := pending[COUNT_OFFSET], pending[STRICT_OFFSET];
    CopyRange(constraints, pending, ENTRIES_OFFSET, ENTRIES_SIZE);
    assert constraints[..ENTRIES_OFFSET] == was[..ENTRIES_OFFSET];
    assert constraints[ENTRIES_OFFSET..COUNT_OFFSET] == pending[ENTRIES_OFFSET..COUNT_OFFSET];
    assert constraints[COUNT_OFFSET..] == was[COUNT_OFFSET..];
    assert was[COUNT_OFFSET..][2..] == was[REST_OFFSET..];
    assert constraints[DISCRIMINATOR_SIZE..ENTRIES_OFFSET] == was[DISCRIMINATOR_SIZE..ENTRIES_OFFSET];
    if constraints[DISCRIMINATOR_SIZE..ENTRIES_OFFSET] != vault {
      return false;
    }
    constraints[COUNT_OFFSET] := newEntryCount;
    constraints[STRICT_OFFSET] := newStrictMode;
    return true;
  }
}

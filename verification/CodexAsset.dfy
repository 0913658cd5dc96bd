/** Installing a Codex asset with a receipt, `install_codex_asset.go`: an upgrade replaces only
    bytes that an earlier install shipped, however installs, crashes and user edits interleave. */
module CodexAsset {
  import opened Bytes
  import opened Wrappers

  /** SHA-256 in hexadecimal, taken to be injective. */
  type Hash = string

  ghost predicate Injective(sha: Bytes -> Hash) {
    forall a, b :: sha(a) == sha(b) ==> a == b
  }

  datatype Outcome = Failed | Skipped | Installed | UpToDate

  /** The asset and its receipt; a receipt that is no hash is `Some(None)`. */
  datatype Disk = Disk(asset: Option<Bytes>, receipt: Option<Option<Hash>>)

  /** What goes wrong: a path that is no regular file, a write that fails, and a crash between
      the two writes. */
  datatype Faults = Faults(irregular: bool, assetFails: bool, crashes: bool, receiptFails: bool)

  class Installer {
    const sha: Bytes -> Hash
    var asset: Option<Bytes>
    var receipt: Option<Option<Hash>>

    constructor (sha: Bytes -> Hash, d: Disk)
      ensures this.sha == sha && Now() == d
    {
      this.sha, asset, receipt := sha, d.asset, d.receipt;
    }

    ghost function Now(): Disk
      reads this
    {
      Disk(asset, receipt)
    }

    /** `installTrackedCodexAsset`: the content first, its receipt second. */
    method Install(content: Bytes, force: bool, f: Faults) returns (outcome: Outcome)
      modifies this
      ensures (Now(), outcome) == After(sha, old(Now()), content, force, f)
    {
      if f.irregular {
        return Failed;
      }
      var wanted := sha(content);
      var same := asset.Some? && sha(asset.value) == wanted;
      if asset.Some? && !same && !force {
        if receipt.None? || receipt.value.None? || receipt.value.value != sha(asset.value) {
          return Skipped;
        }
      }
      if !same {
        if f.assetFails {
          return Failed;
        }
        asset := Some(content);
      }
      if f.crashes || f.receiptFails {
        return Failed;
      }
      receipt := Some(Some(wanted));
      outcome := if same then UpToDate else Installed;
    }
  }

  /** The receipt vouches for the bytes that are there. */
  predicate Vouched(sha: Bytes -> Hash, d: Disk) {
    d.asset.Some? && d.receipt == Some(Some(sha(d.asset.value)))
  }

  /** An install in terms of what it leaves and says. */
  function After(sha: Bytes -> Hash, d: Disk, content: Bytes, force: bool, f: Faults): (Disk, Outcome) {
    if f.irregular then (d, Failed)
    else
      var same := d.asset.Some? && sha(d.asset.value) == sha(content);
      if d.asset.Some? && !same && !force && !Vouched(sha, d) then (d, Skipped)
      else if !same && f.assetFails then (d, Failed)
      else
        var asset := if same then d.asset else Some(content);
        if f.crashes || f.receiptFails then (Disk(asset, d.receipt), Failed)
        else (Disk(asset, Some(Some(sha(content)))), if same then UpToDate else Installed)
  }

  /** Without faults an install goes through exactly when nothing is there, it is forced, the
      content is there already, or the receipt is of the bytes that are there. */
  lemma InstallsExactly(sha: Bytes -> Hash, d: Disk, content: Bytes, force: bool)
    requires Injective(sha)
    ensures After(sha, d, content, force, Faults(false, false, false, false)) ==
            if d.asset == Some(content) then (Disk(d.asset, Some(Some(sha(content)))), UpToDate)
            else if d.asset == None || force || d.receipt == Some(Some(sha(d.asset.value)))
            then (Disk(Some(content), Some(Some(sha(content)))), Installed)
            else (d, Skipped)
  {
  }

  /** A fault never leaves anything but what was there, or the new content with the old receipt,
      and an install with a fault in its way never says that it went through. */
  lemma FaultsLeave(sha: Bytes -> Hash, d: Disk, content: Bytes, force: bool, f: Faults)
    requires f.irregular || f.crashes || f.receiptFails
    ensures var (t, outcome) := After(sha, d, content, force, f);
            && (t == d || t == Disk(Some(content), d.receipt))
            && (f.irregular ==> t == d && outcome == Failed)
            && (outcome == Failed || outcome == Skipped)
  {
  }

  // ---- every run ----

  datatype Event = Installs(content: Bytes, force: bool, f: Faults) | UserEdits(asset: Option<Bytes>) | LosesReceipt

  /** The disk, and every content that an install has shipped: it was written, or was there
      already, and the install went through to the end. */
  datatype World = World(disk: Disk, shipped: set<Bytes>)

  function Step(sha: Bytes -> Hash, w: World, e: Event): World {
    match e
    case Installs(content, force, f) =>
      var (disk, outcome) := After(sha, w.disk, content, force, f);
      World(disk, w.shipped + if outcome == Installed || outcome == UpToDate then {content} else {})
    case UserEdits(asset) => w.(disk := w.disk.(asset := asset))
    case LosesReceipt => w.(disk := w.disk.(receipt := None))
  }

  function Run(sha: Bytes -> Hash, w: World, es: seq<Event>): World
    decreases |es|
  {
    if es == [] then w else Run(sha, Step(sha, w, es[0]), es[1..])
  }

  /** Before the first install there is no receipt, whatever the user keeps there. */
  function Start(asset: Option<Bytes>): World {
    World(Disk(asset, None), {})
  }

  /** A receipt is of something that was shipped. */
  ghost predicate Inv(sha: Bytes -> Hash, w: World) {
    w.disk.receipt.Some? ==> w.disk.receipt.value.Some? && exists c :: c in w.shipped && w.disk.receipt.value.value == sha(c)
  }

  lemma StepKeepsInv(sha: Bytes -> Hash, w: World, e: Event)
    requires Inv(sha, w)
    ensures Inv(sha, Step(sha, w, e))
  {
    var t := Step(sha, w, e);
    if t.disk.receipt.Some? {
      if t.disk.receipt == w.disk.receipt {
        var c :| c in w.shipped && w.disk.receipt.value.value == sha(c);
        assert c in t.shipped;
      } else {
        assert e.Installs? && e.content in t.shipped;
      }
    }
  }

  lemma {:induction false} RunKeepsInv(sha: Bytes -> Hash, w: World, es: seq<Event>)
    requires Inv(sha, w)
    ensures Inv(sha, Run(sha, w, es))
    decreases |es|
  {
    hide Inv, Step;
    if es != [] {
      StepKeepsInv(sha, w, es[0]);
      RunKeepsInv(sha, Step(sha, w, es[0]), es[1..]);
    }
  }

  /** In every run, an install without force that replaces bytes replaces bytes that an earlier
      install shipped: what only the user wrote is kept. */
  lemma OnlyShippedBytesAreReplaced(sha: Bytes -> Hash, asset: Option<Bytes>, es: seq<Event>, content: Bytes, f: Faults)
    requires Injective(sha)
    ensures var w := Run(sha, Start(asset), es);
            var t := After(sha, w.disk, content, false, f).0;
            w.disk.asset.Some? && t.asset != w.disk.asset ==> w.disk.asset.value in w.shipped
  {
    hide Run, Step;
    RunKeepsInv(sha, Start(asset), es);
    var w := Run(sha, Start(asset), es);
    if w.disk.asset.Some? && After(sha, w.disk, content, false, f).0.asset != w.disk.asset {
      var c :| c in w.shipped && w.disk.receipt.value.value == sha(c);
    }
  }

  /** A crash between the two writes is repaired by installing the same content again, and until
      then no other content replaces what is there. */
  lemma CrashFailsClosed(sha: Bytes -> Hash, d: Disk, content: Bytes, other: Bytes, force: bool, f: Faults)
    requires Injective(sha)
    requires f.crashes && !f.irregular && !f.assetFails
    requires After(sha, d, content, force, f).1 == Failed && d.receipt != Some(Some(sha(content)))
    ensures var (crashed, _) := After(sha, d, content, force, f);
            var none := Faults(false, false, false, false);
            && crashed == Disk(Some(content), d.receipt)
            && After(sha, crashed, content, false, none) == (Disk(Some(content), Some(Some(sha(content)))), UpToDate)
            && (other != content ==> After(sha, crashed, other, false, none) == (crashed, Skipped))
  {
  }

  /** Completed installs upgrade each other without force, from any content to any other. */
  lemma UpgradesGoThrough(sha: Bytes -> Hash, d: Disk, first: Bytes, second: Bytes, force: bool)
    requires Injective(sha) && first != second
    requires var r := After(sha, d, first, force, Faults(false, false, false, false)).1; r == Installed || r == UpToDate
    ensures var none := Faults(false, false, false, false);
            var (once, _) := After(sha, d, first, force, none);
            After(sha, once, second, false, none) == (Disk(Some(second), Some(Some(sha(second)))), Installed)
  {
    assert sha(first) != sha(second);
  }
}

/** The parts put together: the daemon with its own decoder and journal parser,
    and what its runs promise across modules. */
module Daemon {
  import opened Bytes
  import opened Errors
  import opened Manifest
  import opened Plans
  import opened Integrity
  import opened Safety
  import opened Runtime
  import opened ArchiveSize
  import ExportSession
  import Journal
  import JournalText
  import Png
  import Chunks

  /** The surroundings the daemon really has: `Png.Decoded` with its limits and
      the parser of `JournalText`. SHA-256, inflation and the manifest's
      deserializer remain parameters. */
  ghost function Surroundings(config: Config, hash: Hash, parseManifest: ManifestParser, limits: Chunks.PngLimits,
                              inflate: Png.Inflate, sessionId: Bytes): Setup
  {
    Setup(config, Env(hash, JournalText.ParseLine, parseManifest),
          png => Png.Decoded(png, limits, inflate, hash), sessionId)
  }

  /** They obey both laws that the runs assume. */
  lemma SurroundingsAreLawful(config: Config, hash: Hash, parseManifest: ManifestParser, limits: Chunks.PngLimits,
                              inflate: Png.Inflate, sessionId: Bytes)
    ensures Lawful(Surroundings(config, hash, parseManifest, limits, inflate, sessionId))
  {
    var setup := Surroundings(config, hash, parseManifest, limits, inflate, sessionId);
    Journal.CanonicalReadsBack();
    hide Png.Decoded, Journal.ReadsBack;
    forall png: Bytes | setup.decode(png).Some? ensures setup.decode(png).value.sha256 == setup.env.hash(png) {
      Png.DecodedIsBounded(png, limits, inflate, hash);
    }
  }

  /** At every moment of every run a session with a manifest exports exactly when
      its archive is at most 512 MiB: 1024 octets, and for the checksum list, the
      manifest and every image 512 and its length rounded up to 512. Otherwise it
      is refused for its size alone. */
  lemma RunsExport(setup: Setup, w: System, steps: seq<Step>)
    requires Initial(w) && Lawful(setup) && Run(setup, w, steps).Some?
    requires ManifestOf(Run(setup, w, steps).value.disk, setup.env).Some?
    ensures var d := Run(setup, w, steps).value.disk;
            var size := SessionArchiveSize(ManifestFile(d).value, CapturesOf(d, setup.env));
            if size <= 536_870_912
            then ExportSession.Exported(d, setup.env).Ok? && |ExportSession.Exported(d, setup.env).value| == size
            else ExportSession.Exported(d, setup.env) == Err(Quota)
  {
    hide *;
    InitialIsSafe(setup, w);
    RunKeeps(setup, w, steps);
    InvIsSafe(setup, Run(setup, w, steps).value);
    SessionExports(Run(setup, w, steps).value.disk, setup.config, setup.env);
  }

  lemma InvIsSafe(setup: Setup, w: System)
    requires Inv(setup, w)
    ensures Safe(w.disk, setup.config, setup.env)
  {
    hide Safe, WorkerOk;
  }

  /** In every run, when a review without an agent at some moment asks for a
      manifest and a later moment shows that manifest, whatever happened between,
      the same review asks for that very manifest again. */
  lemma RunsReviewOnce(setup: Setup, w: System, steps: seq<Step>, k: nat, id: Bytes)
    requires Initial(w) && Lawful(setup) && Run(setup, w, steps).Some? && k <= |steps|
             && Run(setup, w, steps[..k]).Some?
    requires ManifestOf(Run(setup, w, steps[..k]).value.disk, setup.env).Some?
    requires var before, after := Run(setup, w, steps[..k]).value.disk, Run(setup, w, steps).value.disk;
             var next := Revised(setup, before, ManifestOf(before, setup.env).value, Review(id, None));
             next.Some? && ManifestOf(after, setup.env) == next
    ensures var after := Run(setup, w, steps).value.disk;
            var next := ManifestOf(after, setup.env);
            Revised(setup, after, next.value, Review(id, None)) == next
  {
    hide *;
    var before, after := Run(setup, w, steps[..k]).value, Run(setup, w, steps).value;
    InitialIsSafe(setup, w);
    RunKeeps(setup, w, steps[..k]);
    RunKeeps(setup, w, steps);
    InvIsSafe(setup, before);
    InvIsSafe(setup, after);
    assert steps == steps[..k] + steps[k..];
    RunSplits(setup, w, steps[..k], steps[k..]);
    RunKeeps(setup, before, steps[k..]);
    RepeatedReviewChangesNothing(setup, before.disk, after.disk, ManifestOf(before.disk, setup.env).value, id);
  }
}

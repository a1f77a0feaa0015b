/** The module-level constants of the classifier script
    (scripts/convnet_laughter_classify.py, lines 21-43). Only the ones the
    modelled helpers use are given here; the learning rate and the network's
    kernel size, depth and hidden width belong to the network graph, which is
    not part of this model. */
module Config {
  /** DATASET_LOCATION, the prefix put in front of every manifest line. */
  const DatasetLocation: string := ""

  const BatchSize: nat := 120
  const TrainingIterations: nat := 1950

  const MaxAudioLength: nat := 221184
  const Frames: nat := 433
  const Bands: nat := 60

  const NumLabels: nat := 2
  const NumChannels: nat := 2

  /** Evaluation and checkpointing happen on iterations divisible by this. */
  const CheckpointEvery: nat := 10

  /** The category directory whose files get label 0. */
  const LaughterCategory: string := "samples"
}

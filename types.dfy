/** The record shapes exchanged between the front end and the experiment
    backend (src/types/index.ts). JavaScript numbers are idealised as `real`,
    strings as sequences of characters, optional properties as `Option`. */
module Types {
  import opened Wrappers

  /** One concrete sampling point used for one generated response. */
  datatype GenerationParameters = GenerationParameters(
    temperature: real,
    top_p: real,
    max_tokens: real,
    model: Option<string>)

  /** The `{min, max, step}` triple of one tunable parameter. */
  datatype Bound = Bound(min: real, max: real, step: real)

  /** The sweep bounds of the three tunable parameters. */
  datatype ParameterRange = ParameterRange(
    temperature: Bound,
    top_p: Bound,
    max_tokens: Bound)

  /** The four component scores and the aggregate score of one response. */
  datatype QualityMetrics = QualityMetrics(
    coherence: real,
    completeness: real,
    readability: real,
    relevance: real,
    overallScore: real)

  datatype MetricDetails = MetricDetails(
    score: real,
    explanation: string,
    calculation: string,
    factors: map<string, real>)

  /** One generated candidate with its parameters and scores. */
  datatype ResponseData = ResponseData(
    id: string,
    content: string,
    parameters: GenerationParameters,
    metrics: QualityMetrics,
    metricDetails: map<string, MetricDetails>,
    generatedAt: string,
    model: string,
    tokensUsed: Option<real>,
    generationTime: Option<real>)

  /** A prompt, its parameter range and the responses produced for it.
      Nothing in the front end ties `totalRuns` to `|responses|`. */
  datatype ExperimentData = ExperimentData(
    id: string,
    name: Option<string>,
    description: Option<string>,
    prompt: string,
    parameterRange: ParameterRange,
    responses: seq<ResponseData>,
    createdAt: string,
    updatedAt: string,
    totalRuns: real)

  /** What the prompt form hands to the page for generation. */
  datatype GenerationRequest = GenerationRequest(
    prompt: string,
    parameterRange: ParameterRange,
    numberOfRuns: int,
    experimentName: Option<string>,
    experimentDescription: Option<string>)

  /** The three export formats the backend offers. */
  datatype ExportFormat = Json | Csv | Pdf

  datatype ExportRequest = ExportRequest(
    experimentId: string,
    format: ExportFormat,
    includeMetrics: bool,
    includeDetails: bool)
}

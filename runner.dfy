/** The command-line entry point: the first argument chooses training or prediction, the
    DATA_DIR and MODEL_DIR environment variables name the two directories, and the outcome
    becomes the process exit status (1 for every failure, 0 when the run completes). */
module WekaRunner {
  import opened Wrappers
  import opened JavaText
  import opened Weka
  import opened Contract
  import WekaTrainer
  import WekaPredictor

  /** The process environment, as `System.getenv` sees it. */
  type Environment = map<string, string>

  /** The names of the files in each directory on disk. */
  type Disk = map<string, Files>

  /** The files present in a directory; a directory that does not exist has none. */
  function Listing(disk: Disk, dir: string): Files
  {
    if dir in disk then disk[dir] else {}
  }

  datatype Command = TrainCommand | PredictCommand

  /** What `main` decides before it runs anything. */
  datatype Plan =
    | Usage
    | NoDataDir
    | NoModelDir
    | UnknownCommand(given: string)
    | Execute(command: Command, dataDir: string, modelDir: string)

  /** `System.getenv(name)` is neither null nor empty. */
  predicate IsSet(env: Environment, name: string)
  {
    name in env && env[name] != ""
  }

  /** The checks of `main`, in order: an argument is required, DATA_DIR and then MODEL_DIR
      must be set, and the lower-cased first argument must be one of the two commands;
      further arguments are ignored. */
  function PlanOf(args: seq<string>, env: Environment): (r: Plan)
    ensures r == Usage <==> |args| == 0
    ensures |args| > 0 && !IsSet(env, "DATA_DIR") ==> r == NoDataDir
    ensures r == NoModelDir <==> |args| > 0 && IsSet(env, "DATA_DIR") && !IsSet(env, "MODEL_DIR")
    ensures r.Execute? <==>
      |args| > 0 && IsSet(env, "DATA_DIR") && IsSet(env, "MODEL_DIR") && ToLower(args[0]) in {"train", "predict"}
    ensures r.Execute? ==>
      && r.dataDir == env["DATA_DIR"] && r.modelDir == env["MODEL_DIR"]
      && (r.command == TrainCommand <==> ToLower(args[0]) == "train")
    ensures r.UnknownCommand? ==> |args| > 0 && r.given == ToLower(args[0]) && r.given !in {"train", "predict"}
  {
    if |args| == 0 then Usage
    else
      var command := ToLower(args[0]);
      if !IsSet(env, "DATA_DIR") then NoDataDir
      else if !IsSet(env, "MODEL_DIR") then NoModelDir
      else if command == "train" then Execute(TrainCommand, env["DATA_DIR"], env["MODEL_DIR"])
      else if command == "predict" then Execute(PredictCommand, env["DATA_DIR"], env["MODEL_DIR"])
      else UnknownCommand(command)
  }

  /** What training reads besides the file listing: params.json, dataset.csv and what
      Weka does with them. */
  datatype TrainInputs = TrainInputs(params: Params, dataset: Instances, w: WekaTrainer.WekaRun)

  predicate TrainReady(t: TrainInputs)
  {
    Valid(t.dataset) && t.dataset.classIndex == -1 && WekaTrainer.Fits(t.w, |t.dataset.rows|)
  }

  /** What prediction reads besides the file listings. */
  datatype PredictInputs = PredictInputs(
    params: Params, model: WekaPredictor.ModelKind, header: Option<Instances>,
    testData: Instances, m: WekaPredictor.ModelRun)

  predicate PredictReady(p: PredictInputs)
  {
    && Valid(p.testData) && p.testData.classIndex == -1 && |p.testData.attrs| < IntMax
    && WekaPredictor.Answers(p.m, |p.testData.rows|)
    && (p.header.Some? ==> Valid(p.header.value))
  }

  datatype Outcome =
    | Refused(plan: Plan)
    | RanTrain(trained: Result<WekaTrainer.Trained>)
    | RanPredict(predicted: Result<WekaPredictor.Predicted>)

  /** `System.exit(1)` on every refusal and on every exception; a normal return is 0. */
  function ExitStatus(o: Outcome): (r: int)
    ensures r == 0 || r == 1
    ensures r == 0 <==> (o.RanTrain? && o.trained.Ok?) || (o.RanPredict? && o.predicted.Ok?)
  {
    match o
    case Refused(_) => 1
    case RanTrain(res) => if res.Ok? then 0 else 1
    case RanPredict(res) => if res.Ok? then 0 else 1
  }

  /** `main`: decide, then run the trainer or the predictor on the two directories. */
  method Run(args: seq<string>, env: Environment, disk: Disk, t: TrainInputs, p: PredictInputs)
    returns (o: Outcome)
    requires PlanOf(args, env).Execute? && PlanOf(args, env).command == TrainCommand ==> TrainReady(t)
    requires PlanOf(args, env).Execute? && PlanOf(args, env).command == PredictCommand ==> PredictReady(p)
    ensures !PlanOf(args, env).Execute? ==> o == Refused(PlanOf(args, env))
    ensures o.RanTrain? <==> PlanOf(args, env).Execute? && PlanOf(args, env).command == TrainCommand
    ensures o.RanPredict? <==> PlanOf(args, env).Execute? && PlanOf(args, env).command == PredictCommand
    ensures o.RanTrain? ==>
      (o.trained.Ok? <==> WekaTrainer.TrainSucceeds(Listing(disk, env["DATA_DIR"]), t.params, t.dataset))
    ensures o.RanPredict? ==>
      (o.predicted.Ok? <==> WekaPredictor.PredictSucceeds(Listing(disk, env["DATA_DIR"]), Listing(disk, env["MODEL_DIR"]),
                                                           p.params, p.model, p.header, p.testData, p.m))
    ensures o.RanTrain? && "params.json" !in Listing(disk, env["DATA_DIR"]) ==>
      o.trained == Err(MissingFile("params.json"))
    ensures o.RanPredict? && "params.json" !in Listing(disk, env["DATA_DIR"]) ==>
      o.predicted == Err(MissingFile("params.json"))
    ensures (o.RanPredict? && "params.json" in Listing(disk, env["DATA_DIR"]) &&
             Required(p.params, "algorithmType").Ok? && "model.ser" !in Listing(disk, env["MODEL_DIR"])) ==>
      o.predicted == Err(MissingFile("model.ser"))
    ensures ExitStatus(o) == 0 ==> PlanOf(args, env).Execute?
  {
    var plan := PlanOf(args, env);
    if !plan.Execute? {
      return Refused(plan);
    }
    var dataFiles := Listing(disk, plan.dataDir);
    var modelFiles := Listing(disk, plan.modelDir);
    if plan.command == TrainCommand {
      var r := WekaTrainer.Train(dataFiles, t.params, t.dataset, t.w);
      o := RanTrain(r);
    } else {
      var r := WekaPredictor.Predict(dataFiles, modelFiles, p.params, p.model, p.header, p.testData, p.m);
      o := RanPredict(r);
    }
  }
}

/** The `Config` record: output paths and the numeric parameters of a run. */
module Settings {

  datatype Config = Config(
    inputCsv: string,
    resultsCsv: string,
    plotFull: string,
    plotZoom: string,
    pdfReport: string,
    windowSize: int,
    zoomTMin: real,
    zoomTMax: real,
    peakDistance: int)

  /** The defaults `Config()` is built with. */
  function Default(): (cfg: Config)
  {
    Config(
      "data/CBF.csv",
      "Results/CBF_results.csv",
      "Results/pressure_plot_full.png",
      "Results/pressure_plot_zoom.png",
      "Results/Physiological_Report.pdf",
      5, 50.0, 55.0, 5)
  }
}

/** Injected clock readings.

    The program reads the wall clock (`time.time()` and `datetime.now()`) at
    the moment an operation runs. The model passes that reading in as a
    parameter instead. A `Moment` is one reading: `epoch` is the number of
    seconds `time.time()` returns, and `date` and `clock` are what
    `strftime("%Y-%m-%d")` and `strftime("%H:%M:%S")` render for the same
    instant. The renderings are kept abstract: the model never computes a
    calendar. */
module Clock {

  datatype Moment = Moment(epoch: real, date: string, clock: string)
}

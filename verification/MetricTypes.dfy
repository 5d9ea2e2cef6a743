/** The metrics of a container, on the server and in its charts. */
module MetricTypes {

  datatype MetricKind = Cpu | Memory | NetworkRx | NetworkTx

  datatype MetricPoint = MetricPoint(t: int, v: real)
}
